/**
 * `parseDate`: turns an end-date source into the time value of a JavaScript
 * `Date`. Numbers are seconds since the epoch; strings starting with `+` or
 * `-` are offsets `days:hours:minutes:seconds` from now; anything else goes
 * to the host's own date parsing, which is taken as an input here.
 */
module DateResolver {
  import opened JsNumber

  const SecondsPerMinute: int := 60
  const SecondsPerHour: int := 3600
  const SecondsPerDay: int := 86400

  /** The largest magnitude of a valid `Date` time value, in milliseconds
      (100 000 000 days either side of the epoch). */
  const MaxTimeMs: int := 8_640_000_000_000_000

  /** The time value of a `Date`: milliseconds since the epoch, or invalid (NaN). */
  datatype TimeValue = Invalid | Time(ms: int)

  /** The sources the constructor and `setEndDate` accept, one variant per runtime
      type the code distinguishes. For a string that is not an offset, and for an
      object, `hostParse` is what `new Date(source)` yields, which the model does
      not compute; for the primitives `undefined`, `null` and booleans ECMAScript
      fixes that value, and the model computes it. */
  datatype DateSource =
    | NumberSource(seconds: int)
    | StringSource(text: string, hostParse: TimeValue)
    | Undefined
    | Null
    | BooleanSource(b: bool)
    | ObjectSource(hostParse: TimeValue)

  /** ECMAScript TimeClip for an integral time: out-of-range times are invalid. */
  function TimeClip(ms: int): (t: TimeValue)
    ensures t.Time? <==> -MaxTimeMs <= ms <= MaxTimeMs
    ensures t.Time? ==> t.ms == ms
  {
    if -MaxTimeMs <= ms <= MaxTimeMs then Time(ms) else Invalid
  }

  /** `setMilliseconds(0)`: drops the millisecond part, rounding towards the past. */
  function ZeroMilliseconds(t: TimeValue): (r: TimeValue)
    ensures r.Invalid? <==> t.Invalid?
    ensures r.Time? ==> r.ms % 1000 == 0 && r.ms <= t.ms < r.ms + 1000
  {
    match t
    case Invalid => Invalid
    case Time(ms) => Time(ms - ms % 1000)
  }

  /** `s.split(sep)`: the pieces between separators, at least one. */
  function Split(s: string, sep: char): (fields: seq<string>)
    ensures |fields| >= 1
    ensures forall i :: 0 <= i < |fields| ==> sep !in fields[i]
  {
    if |s| == 0 then [""]
    else if s[0] == sep then [""] + Split(s[1..], sep)
    else
      var rest := Split(s[1..], sep);
      [[s[0]] + rest[0]] + rest[1..]
  }

  /** `fields.join(sep)`. */
  function Join(fields: seq<string>, sep: char): string
    requires |fields| >= 1
  {
    if |fields| == 1 then fields[0] else fields[0] + [sep] + Join(fields[1..], sep)
  }

  /** Splitting loses nothing: joining the pieces gives the string back. */
  lemma {:induction false} JoinSplit(s: string, sep: char)
    ensures Join(Split(s, sep), sep) == s
    decreases |s|
  {
    if |s| > 0 {
      JoinSplit(s[1..], sep);
      var rest := Split(s[1..], sep);
      if s[0] != sep {
        if |rest| == 1 {
          assert Join(rest, sep) == rest[0];
        } else {
          assert rest[1..][0] == rest[1];
          assert Join(rest, sep) == rest[0] + [sep] + Join(rest[1..], sep);
          var f := [[s[0]] + rest[0]] + rest[1..];
          assert f[1..] == rest[1..];
        }
      }
    }
  }

  lemma SplitCons(c: char, s: string, sep: char)
    requires c != sep
    ensures Split([c] + s, sep) == [[c] + Split(s, sep)[0]] + Split(s, sep)[1..]
  {
    assert ([c] + s)[1..] == s;
  }

  lemma SplitSeparator(s: string, sep: char)
    ensures Split([sep] + s, sep) == [""] + Split(s, sep)
  {
    assert ([sep] + s)[1..] == s;
  }

  /** Taking the first character off the first field of a join. */
  lemma JoinHead(fields: seq<string>, sep: char)
    requires |fields| >= 1 && |fields[0]| > 0
    ensures var shorter := [fields[0][1..]] + fields[1..];
      Join(fields, sep) == [fields[0][0]] + Join(shorter, sep)
  {
    var head := fields[0];
    var shorter := [head[1..]] + fields[1..];
    assert head == [head[0]] + head[1..];
    if |fields| > 1 {
      assert shorter[1..] == fields[1..];
    }
  }

  /** Pieces without separators come back from the split of their join. */
  lemma {:induction false} SplitJoin(fields: seq<string>, sep: char)
    requires |fields| >= 1
    requires forall i :: 0 <= i < |fields| ==> sep !in fields[i]
    ensures Split(Join(fields, sep), sep) == fields
    decreases |fields|, |fields[0]|, 1
  {
    if |fields[0]| > 0 {
      SplitJoinLetterFirst(fields, sep);
    } else if |fields| > 1 {
      SplitJoinEmptyFirst(fields, sep);
    }
  }

  lemma {:induction false} SplitJoinLetterFirst(fields: seq<string>, sep: char)
    requires |fields| >= 1 && |fields[0]| > 0
    requires forall i :: 0 <= i < |fields| ==> sep !in fields[i]
    ensures Split(Join(fields, sep), sep) == fields
    decreases |fields|, |fields[0]|, 0
  {
    var head := fields[0];
    var shorter := [head[1..]] + fields[1..];
    forall i | 0 <= i < |shorter| ensures sep !in shorter[i] {
      if i == 0 {
        assert forall c :: c in head[1..] ==> c in head;
      } else {
        assert shorter[i] == fields[i];
      }
    }
    SplitJoin(shorter, sep);
    JoinHead(fields, sep);
    assert head[0] in head;
    SplitCons(head[0], Join(shorter, sep), sep);
    assert [head[0]] + head[1..] == head;
    assert shorter[1..] == fields[1..];
    assert fields == [head] + fields[1..];
  }

  lemma {:induction false} SplitJoinEmptyFirst(fields: seq<string>, sep: char)
    requires |fields| > 1 && fields[0] == ""
    requires forall i :: 0 <= i < |fields| ==> sep !in fields[i]
    ensures Split(Join(fields, sep), sep) == fields
    decreases |fields|, |fields[0]|, 0
  {
    var tail := fields[1..];
    forall i | 0 <= i < |tail| ensures sep !in tail[i] {
      assert tail[i] == fields[i + 1];
    }
    SplitJoin(tail, sep);
    assert Join(fields, sep) == [sep] + Join(tail, sep);
    SplitSeparator(Join(tail, sep), sep);
    assert fields == [""] + tail;
  }

  /** The field `k` places from the right of an offset (0 = seconds), read with
      `parse`; `missing` when there are not that many fields. */
  function FieldFromRight<T>(fields: seq<string>, k: nat, missing: T, parse: string -> T): T {
    if k < |fields| then parse(fields[|fields| - 1 - k]) else missing
  }

  /** The offset parser's field loop, one iteration per call, with the field
      reader `parse` as a parameter: it takes the last field off the list and
      stores its reading in the next slot to the left, `time[index - 1]`, then
      `time[index - 2]`, and so on, until the fields or the slots run out. */
  function PopFields<T>(arr: seq<string>, index: nat, time: seq<T>, parse: string -> T): (r: seq<T>)
    requires index <= |time|
    ensures |r| == |time|
    ensures forall j :: 0 <= j < index ==> r[j] == FieldFromRight(arr, index - 1 - j, time[j], parse)
    ensures forall j :: index <= j < |time| ==> r[j] == time[j]
    decreases index
  {
    if |arr| > 0 && index >= 1 then
      var rest := arr[..|arr| - 1];
      var r := PopFields(rest, index - 1, time[index - 1 := parse(arr[|arr| - 1])], parse);
      assert forall j :: 0 <= j < index ==> r[j] == FieldFromRight(arr, index - 1 - j, time[j], parse) by {
        forall j | 0 <= j < index
          ensures r[j] == FieldFromRight(arr, index - 1 - j, time[j], parse)
        {
          if j < index - 1 {
            var k := index - 2 - j;
            assert r[j] == FieldFromRight(rest, k, time[j], parse);
            if k < |rest| {
              assert rest[|rest| - 1 - k] == arr[|arr| - 1 - (k + 1)];
            }
          }
        }
      }
      r
    else time
  }

  /** An offset field as a number: `parseInt(field) || 0`. */
  function FieldValue(fields: seq<string>, k: nat): int {
    FieldFromRight(fields, k, 0, ParseIntOrZero)
  }

  lemma FieldValueAt(f: seq<string>, k: nat)
    ensures k < |f| ==> FieldValue(f, k) == ParseIntOrZero(f[|f| - 1 - k])
    ensures k >= |f| ==> FieldValue(f, k) == 0
  {
  }

  /** Seconds denoted by the text after the sign of an offset string. */
  function OffsetSeconds(body: string): (seconds: int)
    ensures var f := Split(body, ':');
      seconds == SecondsPerDay * FieldValue(f, 3) + SecondsPerHour * FieldValue(f, 2)
               + SecondsPerMinute * FieldValue(f, 1) + FieldValue(f, 0)
  {
    var time := PopFields(Split(body, ':'), 4, [0, 0, 0, 0], ParseIntOrZero);
    SecondsPerDay * time[0] + SecondsPerHour * time[1] + SecondsPerMinute * time[2] + time[3]
  }

  /** Whether a source takes the offset branch. */
  predicate IsOffset(src: DateSource) {
    src.StringSource? && |src.text| > 0 && (src.text[0] == '+' || src.text[0] == '-')
  }

  /** `parseDate(source)`, with the clock reading `new Date()` passed in as `nowMs`. */
  function ParseDate(src: DateSource, nowMs: int): (t: TimeValue)
    ensures src.NumberSource? ==> t == TimeClip(src.seconds * 1000)
    ensures (src.StringSource? || src.ObjectSource?) && !IsOffset(src) ==> t == src.hostParse
    ensures src.Undefined? ==> t.Invalid?
    ensures src.Null? ==> t == Time(0)
    ensures src.BooleanSource? ==> t == Time(if src.b then 1 else 0)
  {
    match src
    case NumberSource(s) => TimeClip(s * 1000)
    case StringSource(s, host) =>
      if |s| > 0 && (s[0] == '+' || s[0] == '-') then
        Shifted(nowMs, OffsetSign(s) * OffsetSeconds(s[1..]))
      else host
    case Undefined => Invalid
    case Null => Time(0)
    case BooleanSource(b) => Time(if b then 1 else 0)
    case ObjectSource(host) => host
  }

  /** The sign an offset string applies: -1 exactly when it starts with `-`. */
  function OffsetSign(text: string): (sign: int)
    requires |text| > 0
    ensures sign == -1 <==> text[0] == '-'
    ensures sign == 1 || sign == -1
  {
    if text[0] == '-' then -1 else 1
  }

  /** `new Date()` moved by `seconds` with `setSeconds`, then `setMilliseconds(0)`:
      now's whole second moved by the same amount, unless the moved time leaves
      the range of `Date`. */
  function Shifted(nowMs: int, seconds: int): (t: TimeValue)
    ensures t.Time? <==> -MaxTimeMs <= nowMs + seconds * 1000 <= MaxTimeMs
    ensures t.Time? ==> t.ms == (nowMs / 1000) * 1000 + seconds * 1000 && t.ms % 1000 == 0
  {
    var q := nowMs / 1000;
    var r := nowMs % 1000;
    assert nowMs + seconds * 1000 == (q + seconds) * 1000 + r;
    assert (nowMs + seconds * 1000) % 1000 == r;
    ZeroMilliseconds(TimeClip(nowMs + seconds * 1000))
  }

  /** An offset string resolves to now with its milliseconds dropped, moved by
      the offset in whole seconds; it is invalid when the moved time leaves the
      range of `Date`. */
  lemma OffsetResolution(src: DateSource, nowMs: int)
    requires IsOffset(src)
    ensures var shift := OffsetSign(src.text) * OffsetSeconds(src.text[1..]) * 1000;
      var t := ParseDate(src, nowMs);
      && (t.Time? <==> -MaxTimeMs <= nowMs + shift <= MaxTimeMs)
      && (t.Time? ==> t.ms == (nowMs / 1000) * 1000 + shift && t.ms % 1000 == 0)
  {
    var k := OffsetSign(src.text) * OffsetSeconds(src.text[1..]);
    assert ParseDate(src, nowMs) == Shifted(nowMs, k);
  }

  /** Fields are read right to left as seconds, minutes, hours and days, for an
      offset with any number of fields; missing ones count as 0. */
  lemma OffsetOfFields(fields: seq<string>)
    requires |fields| >= 1
    requires forall i :: 0 <= i < |fields| ==> ':' !in fields[i]
    ensures OffsetSeconds(Join(fields, ':')) ==
      SecondsPerDay * FieldValue(fields, 3) + SecondsPerHour * FieldValue(fields, 2)
      + SecondsPerMinute * FieldValue(fields, 1) + FieldValue(fields, 0)
  {
    SplitJoin(fields, ':');
  }

  lemma FieldValuesAgree(all: seq<string>, fields: seq<string>, k: nat)
    requires |fields| < |all| && all[|all| - |fields|..] == fields
    requires k < |fields|
    ensures FieldValue(all, k) == FieldValue(fields, k)
  {
    assert all[|all| - 1 - k] == all[|all| - |fields|..][|fields| - 1 - k];
  }

  /** Solver aid: two offsets with the same weighted fields are equal, kept apart
      from the string terms so the arithmetic stays cheap. */
  lemma SameWeights(x: int, y: int, d: int, h: int, m: int, s: int)
    requires x == SecondsPerDay * d + SecondsPerHour * h + SecondsPerMinute * m + s
    requires y == SecondsPerDay * d + SecondsPerHour * h + SecondsPerMinute * m + s
    ensures x == y
  {
  }

  /** Fields further left than the fourth from the right are ignored. */
  lemma ExtraFieldsIgnored(extra: string, fields: seq<string>)
    requires |fields| >= 4
    requires ':' !in extra
    requires forall i :: 0 <= i < |fields| ==> ':' !in fields[i]
    ensures OffsetSeconds(Join([extra] + fields, ':')) == OffsetSeconds(Join(fields, ':'))
  {
    var all := [extra] + fields;
    assert all[|all| - |fields|..] == fields;
    assert forall i :: 0 <= i < |all| ==> ':' !in all[i] by {
      forall i | 0 <= i < |all| ensures ':' !in all[i] {
        if i > 0 {
          assert all[i] == fields[i - 1];
        }
      }
    }
    OffsetOfFields(all);
    OffsetOfFields(fields);
    FieldValuesAgree(all, fields, 0);
    FieldValuesAgree(all, fields, 1);
    FieldValuesAgree(all, fields, 2);
    FieldValuesAgree(all, fields, 3);
    SameWeights(OffsetSeconds(Join(all, ':')), OffsetSeconds(Join(fields, ':')),
      FieldValue(all, 3), FieldValue(all, 2), FieldValue(all, 1), FieldValue(all, 0));
  }

  /** No field holds the separator, as after a split on it. */
  predicate ColonFree(fields: seq<string>) {
    forall j :: 0 <= j < |fields| ==> ':' !in fields[j]
  }

  lemma ReplaceColonFree(fields: seq<string>, i: nat, x: string)
    requires i < |fields| && ColonFree(fields) && ':' !in x
    ensures ColonFree(fields[i := x])
  {
    var a := fields[i := x];
    forall j | 0 <= j < |a| ensures ':' !in a[j] {
      if j != i { assert a[j] == fields[j]; }
    }
  }

  /** Offsets whose four right-most fields read alike are equal. */
  lemma SameFieldsSameOffset(a: seq<string>, b: seq<string>)
    requires |a| >= 1 && |b| >= 1 && ColonFree(a) && ColonFree(b)
    requires FieldValue(a, 0) == FieldValue(b, 0) && FieldValue(a, 1) == FieldValue(b, 1)
    requires FieldValue(a, 2) == FieldValue(b, 2) && FieldValue(a, 3) == FieldValue(b, 3)
    ensures OffsetSeconds(Join(a, ':')) == OffsetSeconds(Join(b, ':'))
  {
    OffsetOfFields(a);
    OffsetOfFields(b);
    SameWeights(OffsetSeconds(Join(a, ':')), OffsetSeconds(Join(b, ':')),
      FieldValue(b, 3), FieldValue(b, 2), FieldValue(b, 1), FieldValue(b, 0));
  }

  lemma ZeroReadsZero()
    ensures ParseIntOrZero("0") == 0
  {
    assert Digits(0) == "0";
    ParseIntNonNegative(0);
  }

  /** Replacing one field by another that reads the same value changes no field value. */
  lemma ReplaceKeepsValue<T>(fields: seq<string>, i: nat, x: string, y: string, k: nat, missing: T, parse: string -> T)
    requires i < |fields| && parse(x) == parse(y)
    ensures FieldFromRight(fields[i := x], k, missing, parse) == FieldFromRight(fields[i := y], k, missing, parse)
  {
    var a := fields[i := x];
    var b := fields[i := y];
    if k < |a| {
      var j := |a| - 1 - k;
      if j == i {
        assert a[j] == x && b[j] == y;
      } else {
        assert a[j] == b[j];
      }
    }
  }

  /** A field that is not a number (empty, say) counts as 0: a field `parseInt`
      cannot read weighs exactly as a `0` in its place. */
  lemma NonNumericFieldIsZero(fields: seq<string>, i: nat, field: string)
    requires i < |fields| && ':' !in field
    requires ColonFree(fields)
    requires ParseInt(field).NaN?
    ensures OffsetSeconds(Join(fields[i := field], ':')) == OffsetSeconds(Join(fields[i := "0"], ':'))
  {
    ZeroReadsZero();
    ReplaceColonFree(fields, i, field);
    ReplaceColonFree(fields, i, "0");
    ReplaceKeepsValue(fields, i, field, "0", 0, 0, ParseIntOrZero);
    ReplaceKeepsValue(fields, i, field, "0", 1, 0, ParseIntOrZero);
    ReplaceKeepsValue(fields, i, field, "0", 2, 0, ParseIntOrZero);
    ReplaceKeepsValue(fields, i, field, "0", 3, 0, ParseIntOrZero);
    SameFieldsSameOffset(fields[i := field], fields[i := "0"]);
  }
}
