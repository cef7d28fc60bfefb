/**
 * The `CountDown` object: construction from options, `start`, `stop`,
 * `setEndDate` and the tick `_update`. The object is an immutable record;
 * each operation returns the next record and the ordered list of effects it
 * had on the world (element writes, callbacks, interval registrations), with
 * the clock reading and the new interval handle passed in.
 */
module CountDown {
  import opened Wrappers
  import opened JsNumber
  import opened Duration
  import opened Formatter
  import opened DateResolver

  const DefaultInterval: int := 1000

  /** `d天hh时mm分ss秒`: days, then hours, minutes and seconds padded to two digits. */
  const DefaultTemplate: string := "d\U{5929}hh\U{65F6}mm\U{5206}ss\U{79D2}"

  /** What `setInterval` returns; the model only compares handles. */
  type Handle = int

  /** The options object. Callbacks and the element are only present or absent:
      their bodies are not part of the model. */
  datatype Options = Options(
    endDate: DateSource,
    interval: Option<int>,
    stringFormatter: Option<string>,
    correctDateOffset: Option<int>,
    onUpdate: bool,
    onEnd: bool,
    updateElement: bool)

  /** The data object of a tick together with its formatted `stringValue`. */
  datatype Snapshot = Snapshot(parts: Parts, text: string)

  datatype Timer = Timer(
    endDate: TimeValue,
    interval: int,
    template: string,
    offsetSeconds: int,
    onUpdate: bool,
    onEnd: bool,
    element: bool,
    schedule: Option<Handle>,
    data: Option<Snapshot>)

  /** Effects on the world, in the order they happen. */
  datatype Event =
    | Render(text: string)          // `updateElement.innerHTML = stringValue`
    | Update(snapshot: Snapshot)    // `onUpdate(data)`
    | Cancel(handle: Handle)        // `clearInterval(handle)`
    | End                           // `onEnd()`
    | Schedule(handle: Handle, every: int)  // `setInterval(tick, every)` returned `handle`

  datatype Error = InvalidEndDate

  /** A state change with the effects it caused. */
  datatype Step = Step(timer: Timer, trace: seq<Event>)

  /** What `_update` returns besides the new state: its data and whether it ended. */
  datatype TickResult = TickResult(timer: Timer, snapshot: Snapshot, ended: bool, trace: seq<Event>)

  /** `option || fallback` for a numeric option: absent and 0 are falsy. */
  function NumberOr(o: Option<int>, fallback: int): (n: int)
    ensures o.Some? && o.value != 0 ==> n == o.value
    ensures o.None? || o.value == 0 ==> n == fallback
  {
    if o.Some? && o.value != 0 then o.value else fallback
  }

  /** `option || fallback` for a string option: absent and the empty string are falsy. */
  function StringOr(o: Option<string>, fallback: string): (s: string)
    ensures o.Some? && o.value != "" ==> s == o.value
    ensures o.None? || o.value == "" ==> s == fallback
  {
    if o.Some? && o.value != "" then o.value else fallback
  }

  /** Whether `!date.getTime()` holds: the time value is NaN or exactly 0. */
  predicate Unusable(t: TimeValue) {
    t.Invalid? || t.ms == 0
  }

  /** `new CountDown(options)`: throws when the end date is invalid or is the
      epoch itself, otherwise applies the defaults and starts out stopped. */
  function Create(o: Options, nowMs: int): (r: Result<Timer, Error>)
    ensures r.Failure? <==> Unusable(ParseDate(o.endDate, nowMs))
    ensures r.Success? ==>
      && r.value.endDate == ParseDate(o.endDate, nowMs)
      && r.value.schedule.None?
      && r.value.data.None?
      && r.value.interval == NumberOr(o.interval, DefaultInterval)
      && r.value.template == StringOr(o.stringFormatter, DefaultTemplate)
      && r.value.offsetSeconds == NumberOr(o.correctDateOffset, 0)
      && r.value.onUpdate == o.onUpdate && r.value.onEnd == o.onEnd && r.value.element == o.updateElement
  {
    var endDate := ParseDate(o.endDate, nowMs);
    if Unusable(endDate) then Failure(InvalidEndDate)
    else
      Success(Timer(
        endDate,
        NumberOr(o.interval, DefaultInterval),
        StringOr(o.stringFormatter, DefaultTemplate),
        NumberOr(o.correctDateOffset, 0),
        o.onUpdate, o.onEnd, o.updateElement,
        None, None))
  }

  /** A missing (`undefined`), `null` or `false` end date makes the constructor
      throw: the first is NaN as a date, the other two are the epoch. */
  lemma MissingEndDateThrows(o: Options, nowMs: int)
    requires o.endDate == Undefined || o.endDate == Null || o.endDate == BooleanSource(false)
    ensures Create(o, nowMs).Failure?
  {
  }

  /** The clock as the timer sees it: the reading moved by the correction. */
  function AdjustedNow(t: Timer, nowMs: int): int {
    nowMs + t.offsetSeconds * 1000
  }

  /** Milliseconds left before `endDate`, never negative; NaN for an invalid end. */
  function Remaining(endDate: TimeValue, adjustedNowMs: int): (n: Num)
    ensures n.NaN? <==> endDate.Invalid?
    ensures n.Int? ==> n.i >= 0 && n.i >= endDate.ms - adjustedNowMs
    ensures n.Int? && n.i > 0 ==> n.i == endDate.ms - adjustedNowMs
  {
    match endDate
    case Invalid => NaN
    case Time(end) => Int(if end - adjustedNowMs > 0 then end - adjustedNowMs else 0)
  }

  /** `stop()`: clears the interval if there is one. */
  function Stop(t: Timer): (r: Step)
    ensures r.timer.schedule.None?
    ensures r.timer.(schedule := t.schedule) == t
    ensures t.schedule.None? ==> r.trace == []
    ensures t.schedule.Some? ==> r.trace == [Cancel(t.schedule.value)]
  {
    match t.schedule
    case None => Step(t, [])
    case Some(h) => Step(t.(schedule := None), [Cancel(h)])
  }

  /** The notices every tick gives: the element write, then `onUpdate`. */
  function Notices(t: Timer, s: Snapshot): seq<Event> {
    (if t.element then [Render(s.text)] else []) + (if t.onUpdate then [Update(s)] else [])
  }

  /** The data object for an end time and a clock reading: the clamped
      difference split into units, or NaN throughout for an invalid end. */
  function Measured(endDate: TimeValue, adjustedNowMs: int): (p: Parts)
    ensures p.total == Remaining(endDate, adjustedNowMs)
  {
    match endDate
    case Invalid => Unmeasurable
    case Time(end) =>
      var diff := end - adjustedNowMs;
      Measure(if diff > 0 then diff else 0)
  }

  /** `_update()` at clock reading `nowMs`. */
  function Tick(t: Timer, nowMs: int): (r: TickResult)
    ensures r.snapshot.parts.total == Remaining(t.endDate, AdjustedNow(t, nowMs))
    ensures r.snapshot.text == Format(r.snapshot.parts, t.template)
    ensures r.ended <==> r.snapshot.parts.total == Int(0)
    ensures r.timer.data == Some(r.snapshot)
    ensures r.ended ==> r.timer.schedule.None?
    ensures !r.ended ==> r.timer.schedule == t.schedule
    ensures r.timer.(schedule := t.schedule, data := t.data) == t
  {
    var parts := Measured(t.endDate, AdjustedNow(t, nowMs));
    var snapshot := Snapshot(parts, Format(parts, t.template));
    var shown := t.(data := Some(snapshot));
    var notices := Notices(t, snapshot);
    if parts.total == Int(0) then
      var stopped := Stop(shown);
      TickResult(stopped.timer, snapshot, true, notices + stopped.trace + (if t.onEnd then [End] else []))
    else
      TickResult(shown, snapshot, false, notices)
  }

  /** `start()`: stop, tick once, and install one interval unless that tick ended. */
  function Start(t: Timer, nowMs: int, newHandle: Handle): (r: Step)
    ensures var k := Tick(Stop(t).timer, nowMs);
      && (r.timer.schedule.Some? <==> !k.ended)
      && (r.timer.schedule.Some? ==> r.timer.schedule.value == newHandle)
      && r.timer.data == Some(k.snapshot)
      && r.timer.(schedule := t.schedule, data := t.data) == t
    ensures var k := Tick(Stop(t).timer, nowMs);
      r.trace == Stop(t).trace + k.trace + (if k.ended then [] else [Schedule(newHandle, t.interval)])
  {
    var stopped := Stop(t);
    var k := Tick(stopped.timer, nowMs);
    if k.ended then Step(k.timer, stopped.trace + k.trace)
    else Step(k.timer.(schedule := Some(newHandle)), stopped.trace + k.trace + [Schedule(newHandle, t.interval)])
  }

  /** `setEndDate(date)`: replaces the end time, valid or not, and nothing else. */
  function SetEndDate(t: Timer, src: DateSource, nowMs: int): (r: Timer)
    ensures r.endDate == ParseDate(src, nowMs)
    ensures r.(endDate := t.endDate) == t
  {
    t.(endDate := ParseDate(src, nowMs))
  }
}
