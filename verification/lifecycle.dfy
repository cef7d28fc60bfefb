/**
 * The timer seen from the host: which intervals are live after a sequence of
 * effects, and what any sequence of `start`, `stop`, interval firings and
 * `setEndDate` calls can do. Re-entrant calls from inside callbacks are not
 * part of this model.
 */
module Lifecycle {
  import opened Wrappers
  import opened DateResolver
  import opened CountDown

  /** The live intervals after one effect. */
  function Effect(live: set<Handle>, e: Event): set<Handle> {
    match e
    case Schedule(h, _) => live + {h}
    case Cancel(h) => live - {h}
    case _ => live
  }

  /** The live intervals after a sequence of effects, in order. */
  function Live(live: set<Handle>, trace: seq<Event>): set<Handle>
    decreases |trace|
  {
    if |trace| == 0 then live else Live(Effect(live, trace[0]), trace[1..])
  }

  lemma {:induction false} LiveConcat(live: set<Handle>, a: seq<Event>, b: seq<Event>)
    ensures Live(live, a + b) == Live(Live(live, a), b)
    decreases |a|
  {
    if |a| == 0 {
      assert a + b == b;
    } else {
      assert (a + b)[1..] == a[1..] + b;
      LiveConcat(Effect(live, a[0]), a[1..], b);
    }
  }

  /** The timer's own record of its interval agrees with the host: exactly the
      stored handle is live when running, nothing when stopped. */
  predicate Tracks(t: Timer, live: set<Handle>) {
    live == (if t.schedule.Some? then {t.schedule.value} else {})
  }

  /** Effects that do not touch intervals. */
  predicate Quiet(trace: seq<Event>) {
    forall i :: 0 <= i < |trace| ==> !trace[i].Cancel? && !trace[i].Schedule?
  }

  lemma {:induction false} QuietLive(live: set<Handle>, trace: seq<Event>)
    requires Quiet(trace)
    ensures Live(live, trace) == live
    decreases |trace|
  {
    if |trace| > 0 {
      QuietLive(live, trace[1..]);
    }
  }

  /** `stop()` twice is `stop()` once: the second call finds nothing to clear. */
  lemma StopIdempotent(t: Timer)
    ensures Stop(Stop(t).timer) == Step(Stop(t).timer, [])
    ensures Live(Live({}, Stop(t).trace), Stop(Stop(t).timer).trace) == Live({}, Stop(t).trace)
  {
  }

  lemma StopTracks(t: Timer, live: set<Handle>)
    requires Tracks(t, live)
    ensures Live(live, Stop(t).trace) == {}
    ensures Tracks(Stop(t).timer, Live(live, Stop(t).trace))
  {
  }

  /** The order of a tick's effects: element write and `onUpdate`, and only when
      the tick ended the clearing of the interval and then `onEnd`, last. */
  lemma TickTrace(t: Timer, nowMs: int)
    ensures var r := Tick(t, nowMs);
      r.trace == Notices(t, r.snapshot) + (if r.ended then Stop(t).trace + (if t.onEnd then [End] else []) else [])
  {
  }

  lemma NoticesQuiet(t: Timer, s: Snapshot)
    ensures Quiet(Notices(t, s))
  {
  }

  /** Quiet effects around a stretch leave the live intervals as the stretch does. */
  lemma QuietAround(live: set<Handle>, before: seq<Event>, middle: seq<Event>, after: seq<Event>)
    requires Quiet(before) && Quiet(after)
    ensures Live(live, before + (middle + after)) == Live(live, middle)
  {
    QuietLive(live, before);
    LiveConcat(live, before, middle + after);
    LiveConcat(live, middle, after);
    QuietLive(Live(live, middle), after);
  }

  /** A tick leaves the host in step with the timer: an ending tick cancels the
      interval it ran under, any other tick leaves it alone. */
  lemma TickTracks(t: Timer, live: set<Handle>, nowMs: int)
    requires Tracks(t, live)
    ensures Tracks(Tick(t, nowMs).timer, Live(live, Tick(t, nowMs).trace))
  {
    var r := Tick(t, nowMs);
    var notices := Notices(t, r.snapshot);
    TickTrace(t, nowMs);
    NoticesQuiet(t, r.snapshot);
    if r.ended {
      var ending := if t.onEnd then [End] else [];
      assert Quiet(ending);
      assert r.trace == notices + (Stop(t).trace + ending);
      QuietAround(live, notices, Stop(t).trace, ending);
      StopTracks(t, live);
      assert Live(live, r.trace) == {};
      assert r.timer.schedule.None?;
    } else {
      assert notices + [] == notices;
      assert r.trace == notices;
      QuietLive(live, notices);
      assert r.timer.schedule == t.schedule;
    }
  }

  /** `start()` always leaves at most one live interval, the one it recorded:
      whatever ran before is cancelled first. */
  lemma StartTracks(t: Timer, live: set<Handle>, nowMs: int, newHandle: Handle)
    requires Tracks(t, live)
    ensures Tracks(Start(t, nowMs, newHandle).timer, Live(live, Start(t, nowMs, newHandle).trace))
    ensures |Live(live, Start(t, nowMs, newHandle).trace)| <= 1
  {
    var s := Stop(t);
    StopTracks(t, live);
    var k := Tick(s.timer, nowMs);
    TickTracks(s.timer, {}, nowMs);
    LiveConcat(live, s.trace, k.trace);
    if k.ended {
      StartEndedTracks(t, live, nowMs, newHandle);
    } else {
      StartRunningTracks(t, live, nowMs, newHandle);
    }
  }

  lemma StartEndedTracks(t: Timer, live: set<Handle>, nowMs: int, newHandle: Handle)
    requires Tick(Stop(t).timer, nowMs).ended
    requires Live(live, Stop(t).trace + Tick(Stop(t).timer, nowMs).trace) == {}
    ensures Tracks(Start(t, nowMs, newHandle).timer, Live(live, Start(t, nowMs, newHandle).trace))
    ensures Live(live, Start(t, nowMs, newHandle).trace) == {}
  {
    var k := Tick(Stop(t).timer, nowMs);
    var r := Start(t, nowMs, newHandle);
    assert r == Step(k.timer, Stop(t).trace + k.trace);
    assert r.timer.schedule.None?;
  }

  lemma StartRunningTracks(t: Timer, live: set<Handle>, nowMs: int, newHandle: Handle)
    requires !Tick(Stop(t).timer, nowMs).ended
    requires Live(live, Stop(t).trace + Tick(Stop(t).timer, nowMs).trace) == {}
    ensures Tracks(Start(t, nowMs, newHandle).timer, Live(live, Start(t, nowMs, newHandle).trace))
    ensures Live(live, Start(t, nowMs, newHandle).trace) == {newHandle}
  {
    var k := Tick(Stop(t).timer, nowMs);
    var r := Start(t, nowMs, newHandle);
    var before := Stop(t).trace + k.trace;
    var scheduled := [Schedule(newHandle, t.interval)];
    assert r == Step(k.timer.(schedule := Some(newHandle)), before + scheduled);
    LiveConcat(live, before, scheduled);
    assert r.timer.schedule == Some(newHandle);
  }

  /** What the caller or the host can do to a timer. An interval firing runs a
      tick only while the timer holds a live interval. */
  datatype Op =
    | StartAt(nowMs: int, newHandle: Handle)
    | StopNow
    | FireAt(nowMs: int)
    | SetEndAt(src: DateSource, nowMs: int)

  function Apply(t: Timer, op: Op): Step {
    match op
    case StartAt(now, h) => Start(t, now, h)
    case StopNow => Stop(t)
    case FireAt(now) =>
      if t.schedule.Some? then var k := Tick(t, now); Step(k.timer, k.trace) else Step(t, [])
    case SetEndAt(src, now) => Step(SetEndDate(t, src, now), [])
  }

  /** Operations applied in order, effects concatenated. */
  function Run(t: Timer, ops: seq<Op>): Step
    decreases |ops|
  {
    if |ops| == 0 then Step(t, [])
    else
      var s := Apply(t, ops[0]);
      var rest := Run(s.timer, ops[1..]);
      Step(rest.timer, s.trace + rest.trace)
  }

  lemma ApplyTracks(t: Timer, live: set<Handle>, op: Op)
    requires Tracks(t, live)
    ensures Tracks(Apply(t, op).timer, Live(live, Apply(t, op).trace))
  {
    match op
    case StartAt(now, h) => StartTracks(t, live, now, h);
    case StopNow => StopTracks(t, live);
    case FireAt(now) =>
      if t.schedule.Some? {
        TickTracks(t, live, now);
      }
    case SetEndAt(src, now) =>
  }

  /** Whatever happens, the host never holds more than one live interval for the
      timer, and it is the one the timer would clear. */
  lemma {:induction false} RunTracks(t: Timer, live: set<Handle>, ops: seq<Op>)
    requires Tracks(t, live)
    ensures Tracks(Run(t, ops).timer, Live(live, Run(t, ops).trace))
    ensures |Live(live, Run(t, ops).trace)| <= 1
    decreases |ops|
  {
    if |ops| > 0 {
      var s := Apply(t, ops[0]);
      ApplyTracks(t, live, ops[0]);
      RunTracks(s.timer, Live(live, s.trace), ops[1..]);
      LiveConcat(live, s.trace, Run(s.timer, ops[1..]).trace);
    }
  }

  /** How many times `onEnd` is called in a trace. */
  function Ends(trace: seq<Event>): nat
    decreases |trace|
  {
    if |trace| == 0 then 0 else (if trace[0] == End then 1 else 0) + Ends(trace[1..])
  }

  lemma {:induction false} EndsConcat(a: seq<Event>, b: seq<Event>)
    ensures Ends(a + b) == Ends(a) + Ends(b)
    decreases |a|
  {
    if |a| == 0 {
      assert a + b == b;
    } else {
      assert (a + b)[1..] == a[1..] + b;
      EndsConcat(a[1..], b);
    }
  }

  lemma NoticesEnds(t: Timer, s: Snapshot)
    ensures Ends(Notices(t, s)) == 0
  {
    var a := if t.element then [Render(s.text)] else [];
    var b := if t.onUpdate then [Update(s)] else [];
    EndsConcat(a, b);
  }

  /** A tick calls `onEnd` once if it ended and the timer has one, else never. */
  lemma TickEnds(t: Timer, nowMs: int)
    ensures var r := Tick(t, nowMs);
      Ends(r.trace) == (if r.ended && t.onEnd then 1 else 0)
  {
    var r := Tick(t, nowMs);
    TickTrace(t, nowMs);
    var notices := Notices(t, r.snapshot);
    NoticesEnds(t, r.snapshot);
    if r.ended {
      var ending := if t.onEnd then [End] else [];
      EndsConcat(notices, Stop(t).trace + ending);
      EndsConcat(Stop(t).trace, ending);
    } else {
      assert notices + [] == notices;
    }
  }

  /** Without a new `start()`, `onEnd` is called at most once, and never for a
      timer that is not running: the ending tick clears the interval, so nothing
      fires after it. */
  lemma {:induction false} EndsAtMostOnce(t: Timer, ops: seq<Op>)
    requires forall i :: 0 <= i < |ops| ==> !ops[i].StartAt?
    ensures Ends(Run(t, ops).trace) <= (if t.schedule.Some? then 1 else 0)
    decreases |ops|
  {
    if |ops| > 0 {
      var s := Apply(t, ops[0]);
      EndsAtMostOnce(s.timer, ops[1..]);
      EndsConcat(s.trace, Run(s.timer, ops[1..]).trace);
      match ops[0]
      case StopNow =>
      case FireAt(now) =>
        if t.schedule.Some? {
          TickEnds(t, now);
        }
      case SetEndAt(src, now) =>
    }
  }
}
