/** Cron expressions, read twice: by the scheduler, which asks whether a minute matches, and by the
    server, which accepts or refuses an expression. */
module Cron {
  import opened Strings
  import opened Numbers

  datatype Kind = Minute | Hour | Day | Month | Weekday
  {
    function Min(): int { if this == Day || this == Month then 1 else 0 }

    function Max(): int {
      match this
      case Minute => 59
      case Hour => 23
      case Day => 31
      case Month => 12
      case Weekday => 7
    }
  }

  const KINDS := [Minute, Hour, Day, Month, Weekday]

  /** A wall-clock minute. `weekday` is 0 for Sunday. */
  datatype Civil = Civil(year: int, month: int, day: int, hour: int, minute: int, weekday: int)

  function MonthNumber(v: string): Option<int> {
    match v
    case "jan" => Some(1) case "january" => Some(1)
    case "feb" => Some(2) case "february" => Some(2)
    case "mar" => Some(3) case "march" => Some(3)
    case "apr" => Some(4) case "april" => Some(4)
    case "may" => Some(5)
    case "jun" => Some(6) case "june" => Some(6)
    case "jul" => Some(7) case "july" => Some(7)
    case "aug" => Some(8) case "august" => Some(8)
    case "sep" => Some(9) case "september" => Some(9)
    case "oct" => Some(10) case "october" => Some(10)
    case "nov" => Some(11) case "november" => Some(11)
    case "dec" => Some(12) case "december" => Some(12)
    case _ => None
  }

  function WeekdayNumber(v: string): Option<int> {
    match v
    case "sun" => Some(0) case "sunday" => Some(0)
    case "mon" => Some(1) case "monday" => Some(1)
    case "tue" => Some(2) case "tuesday" => Some(2)
    case "wed" => Some(3) case "wednesday" => Some(3)
    case "thu" => Some(4) case "thursday" => Some(4)
    case "fri" => Some(5) case "friday" => Some(5)
    case "sat" => Some(6) case "saturday" => Some(6)
    case _ => None
  }

  /** `cronValueToInt`, of which both packages hold the same copy. */
  function CronValue(text: string, kind: Kind): Option<int> {
    var v := ToLower(TrimSpace(text));
    if Atoi(v).Some? then Atoi(v)
    else if kind == Month then MonthNumber(v)
    else if kind == Weekday then WeekdayNumber(v)
    else None
  }

  // ----- the scheduler's matcher

  predicate SegmentMatches(segment: string, value: int, kind: Kind, min: int, max: int) {
    var (base, stepText, hasStep) := Cut(segment, '/');
    var step := if hasStep then Atoi(stepText) else Some(1);
    if step.None? || step.value < 1 then false
    else if base == "*" then
      !hasStep || (value >= min && (value - min) % step.value == 0)
    else if '-' in base then
      var (loText, hiText, _) := Cut(base, '-');
      var lo, hi := CronValue(loText, kind), CronValue(hiText, kind);
      if lo.None? || hi.None? || lo.value < min || hi.value > max || lo.value > hi.value then false
      else lo.value <= value <= hi.value && (!hasStep || (value - lo.value) % step.value == 0)
    else
      var n := CronValue(base, kind);
      if n.None? || n.value < min || n.value > max then false
      else value == n.value && (!hasStep || (value - n.value) % step.value == 0)
  }

  predicate SegmentsMatch(segments: seq<string>, value: int, kind: Kind, min: int, max: int) {
    if segments == [] then false
    else
      var seg := TrimSpace(segments[0]);
      if seg == "" then false
      else SegmentMatches(seg, value, kind, min, max) || SegmentsMatch(segments[1..], value, kind, min, max)
  }

  /** `fieldMatches` with the limits of the field's own kind. */
  predicate FieldMatches(field: string, value: int, kind: Kind) {
    SegmentsMatch(Split(field, ','), value, kind, kind.Min(), kind.Max())
  }

  /** Cron's Sunday is 0 and 7; the clock's is only 0. */
  predicate WeekdayFieldMatches(field: string, weekday: int) {
    FieldMatches(field, weekday, Weekday) || (weekday == 0 && FieldMatches(field, 7, Weekday))
  }

  const MACROS := ["@yearly", "@annually", "@monthly", "@weekly", "@daily", "@midnight", "@hourly"]

  predicate IsCronMacro(expr: string) {
    ToLower(TrimSpace(expr)) in MACROS
  }

  function ExpandMacro(expr: string): string {
    match ToLower(TrimSpace(expr))
    case "@yearly" => "0 0 1 1 *"
    case "@annually" => "0 0 1 1 *"
    case "@monthly" => "0 0 1 * *"
    case "@weekly" => "0 0 * * 0"
    case "@daily" => "0 0 * * *"
    case "@midnight" => "0 0 * * *"
    case "@hourly" => "0 * * * *"
    case _ => expr
  }

  /** The fields that the matcher reads, once blanks are trimmed and a macro is expanded. */
  function Parts(expr: string): seq<string> {
    var e := TrimSpace(expr);
    Fields(if IsCronMacro(e) then ExpandMacro(e) else e)
  }

  /** Day of month and day of week: either may match when both are restricted. */
  predicate DayMatches(dom: string, dow: string, day: int, weekday: int) {
    var domMatch, dowMatch := FieldMatches(dom, day, Day), WeekdayFieldMatches(dow, weekday);
    if dom != "*" && dow != "*" then domMatch || dowMatch else domMatch && dowMatch
  }

  predicate CronMatches(expr: string, now: Civil) {
    var parts := Parts(expr);
    TrimSpace(expr) != "" && |parts| == 5 &&
    FieldMatches(parts[0], now.minute, Minute) && FieldMatches(parts[1], now.hour, Hour) &&
    FieldMatches(parts[3], now.month, Month) && DayMatches(parts[2], parts[4], now.day, now.weekday)
  }

  // ----- what a segment means

  /** The values `first`, `first + step`, ... up to `last`. */
  datatype Progression = Progression(first: int, last: int, step: int)
  {
    ghost predicate Has(v: int) { v <= last && exists k: nat :: IsTerm(k, v) }

    predicate IsTerm(k: nat, v: int) { v == first + k * step }
  }

  /** How a segment reads: `*` is all values, a range its own, and a single value only itself, with or
      without a step. */
  function Reading(seg: string, kind: Kind, min: int, max: int): Option<Progression> {
    var (base, stepText, hasStep) := Cut(seg, '/');
    var step := if hasStep then Atoi(stepText) else Some(1);
    if step.None? || step.value < 1 then None
    else if base == "*" then Some(Progression(min, max, step.value))
    else
      var (lo, hi, isRange) := Cut(base, '-');
      var first, last := CronValue(lo, kind), CronValue(if isRange then hi else lo, kind);
      if first.None? || last.None? || first.value < min || last.value > max || first.value > last.value then None
      else Some(Progression(first.value, last.value, step.value))
  }

  lemma TermsOf(p: Progression, v: int)
    requires p.step >= 1
    ensures p.Has(v) <==> p.first <= v <= p.last && (v - p.first) % p.step == 0
  {
    if p.first <= v && (v - p.first) % p.step == 0 {
      var k := (v - p.first) / p.step;
      assert v - p.first == k * p.step;
      assert k >= 0;
      assert p.IsTerm(k, v);
    }
    if k: nat :| p.IsTerm(k, v) {
      QuotientUnique(v - p.first, p.step, k, 0);
      assert k * p.step >= 0;
    }
  }

  lemma DashInside(base: string)
    ensures '-' in base <==> Cut(base, '-').2
    ensures !Cut(base, '-').2 ==> Cut(base, '-').0 == base
  {
    var (lo, hi, found) := Cut(base, '-');
    if found {
      assert base[|lo|] == '-';
    }
  }

  /** Within the limits the matcher fires on exactly the values of the progression that the segment
      reads as. */
  lemma {:induction false} SegmentIsProgression(seg: string, v: int, kind: Kind, min: int, max: int)
    requires min <= v <= max
    ensures SegmentMatches(seg, v, kind, min, max)
       <==> Reading(seg, kind, min, max).Some? && Reading(seg, kind, min, max).value.Has(v)
  {
    hide CronValue, Atoi, Cut, Progression.Has;
    DashInside(Cut(seg, '/').0);
    if Reading(seg, kind, min, max).Some? {
      TermsOf(Reading(seg, kind, min, max).value, v);
    }
  }

  // ----- the server's validator

  /** One turn of `validateCronField`'s loop, on a trimmed segment: the error it returns, if any. */
  function SegmentError(seg: string, min: int, max: int, kind: Kind): Option<string> {
    var (base, stepText, hasStep) := Cut(seg, '/');
    if seg == "" then Some("empty segment")
    else if seg == "*" then None
    else if hasStep && (Atoi(stepText).None? || Atoi(stepText).value < 1) then Some("step must be a positive integer")
    else if base == "*" then None
    else if '-' in base then
      var (loText, hiText, _) := Cut(base, '-');
      var lo, hi := CronValue(loText, kind), CronValue(hiText, kind);
      if lo.None? || hi.None? then Some("range bounds must be integers or valid names")
      else if lo.value > hi.value then Some("range start cannot be greater than range end")
      else if lo.value < min || hi.value > max then Some("range out of bounds")
      else None
    else
      var n := CronValue(base, kind);
      if n.None? then Some("value must be an integer, *, range, step, or valid name")
      else if n.value < min || n.value > max then Some("value out of bounds")
      else None
  }

  ghost predicate CanFire(seg: string, kind: Kind, min: int, max: int) {
    exists v | min <= v <= max :: SegmentMatches(seg, v, kind, min, max)
  }

  /** The two implementations agree: for every kind of field and all limits the validator accepts a segment
      exactly when the matcher fires on some value within the limits. */
  lemma SegmentsAgree(seg: string, kind: Kind, min: int, max: int)
    requires min <= max
    ensures SegmentError(seg, min, max, kind).None? <==> seg != "" && CanFire(seg, kind, min, max)
  {
    hide CronValue, Atoi;
    var (base, stepText, hasStep) := Cut(seg, '/');
    if SegmentError(seg, min, max, kind).None? {
      if base == "*" {
        assert seg == "*" ==> !hasStep;
        assert SegmentMatches(seg, min, kind, min, max);
      } else if '-' in base {
        assert SegmentMatches(seg, CronValue(Cut(base, '-').0, kind).value, kind, min, max);
      } else {
        assert SegmentMatches(seg, CronValue(base, kind).value, kind, min, max);
      }
    }
    if seg != "" && CanFire(seg, kind, min, max) {
      var v :| min <= v <= max && SegmentMatches(seg, v, kind, min, max);
    }
  }

  /** A field all of whose segments can fire. */
  ghost predicate FieldAccepted(field: string, kind: Kind) {
    forall i :: 0 <= i < |Split(field, ',')| ==>
      var seg := TrimSpace(Split(field, ',')[i]); seg != "" && CanFire(seg, kind, kind.Min(), kind.Max())
  }

  /** `validateCronField`: a field is accepted exactly when each of its segments can fire. */
  method ValidateCronField(field: string, kind: Kind) returns (err: Option<string>)
    ensures err.None? <==> FieldAccepted(field, kind)
  {
    hide TrimSpace, Split, SegmentError, CanFire;
    var segments := Split(field, ',');
    for i := 0 to |segments|
      invariant forall j :: 0 <= j < i ==>
        var seg := TrimSpace(segments[j]); seg != "" && CanFire(seg, kind, kind.Min(), kind.Max())
    {
      var seg := TrimSpace(segments[i]);
      SegmentsAgree(seg, kind, kind.Min(), kind.Max());
      err := SegmentError(seg, kind.Min(), kind.Max(), kind);
      if err.Some? {
        return;
      }
    }
    err := None;
  }

  ghost predicate ExprAccepted(expr: string) {
    IsCronMacro(expr) ||
    (|Fields(TrimSpace(expr))| == 5 && forall i :: 0 <= i < 5 ==> FieldAccepted(Fields(TrimSpace(expr))[i], KINDS[i]))
  }

  /** `validateCronExpression`; the first field that is refused decides the error. */
  method ValidateCronExpression(text: string) returns (err: Option<(int, string)>)
    ensures err.None? <==> ExprAccepted(text)
    ensures err.Some? && err.value.0 >= 0 ==>
      var parts := Fields(TrimSpace(text)); var i := err.value.0;
      |parts| == 5 && i < 5 && !FieldAccepted(parts[i], KINDS[i]) && forall j :: 0 <= j < i ==> FieldAccepted(parts[j], KINDS[j])
  {
    hide FieldAccepted, Fields;
    var expr := TrimSpace(text);
    TrimTwice(text);
    if IsCronMacro(expr) {
      return None;
    }
    var parts := Fields(expr);
    if |parts| != 5 {
      return Some((-1, "cron_expr must contain 5 fields"));
    }
    for i := 0 to 5
      invariant forall j :: 0 <= j < i ==> FieldAccepted(parts[j], KINDS[j])
    {
      var e := ValidateCronField(parts[i], KINDS[i]);
      if e.Some? {
        return Some((i, e.value));
      }
    }
    err := None;
  }

  // ----- fields

  lemma {:induction false} SomeSegmentMatches(segments: seq<string>, v: int, kind: Kind, min: int, max: int)
    requires forall i :: 0 <= i < |segments| ==> TrimSpace(segments[i]) != ""
    ensures SegmentsMatch(segments, v, kind, min, max)
       <==> exists i :: 0 <= i < |segments| && SegmentMatches(TrimSpace(segments[i]), v, kind, min, max)
  {
    hide SegmentMatches, TrimSpace;
    if segments != [] {
      var rest := segments[1..];
      assert forall i :: 0 <= i < |rest| ==> rest[i] == segments[i + 1];
      SomeSegmentMatches(rest, v, kind, min, max);
      if i :| 0 <= i < |segments| && SegmentMatches(TrimSpace(segments[i]), v, kind, min, max) {
        if i > 0 { assert rest[i - 1] == segments[i]; }
      }
    }
  }

  /** An accepted field fires on some value within its limits. */
  lemma AcceptedFieldFires(field: string, kind: Kind) returns (v: int)
    requires FieldAccepted(field, kind)
    ensures kind.Min() <= v <= kind.Max() && FieldMatches(field, v, kind)
  {
    hide SegmentMatches, TrimSpace, Split;
    var segments := Split(field, ',');
    assert TrimSpace(segments[0]) != "" && CanFire(TrimSpace(segments[0]), kind, kind.Min(), kind.Max());
    v :| kind.Min() <= v <= kind.Max() && SegmentMatches(TrimSpace(segments[0]), v, kind, kind.Min(), kind.Max());
    SomeSegmentMatches(segments, v, kind, kind.Min(), kind.Max());
  }

  /** The weekday field too, 7 included: some weekday of the clock matches. */
  lemma AcceptedWeekdayFires(field: string) returns (w: int)
    requires FieldAccepted(field, Weekday)
    ensures 0 <= w <= 6 && WeekdayFieldMatches(field, w)
  {
    var v := AcceptedFieldFires(field, Weekday);
    w := if v == 7 then 0 else v;
  }

  /** The star matches every value. */
  lemma StarMatches(v: int, kind: Kind)
    ensures FieldMatches("*", v, kind) && FieldAccepted("*", kind)
  {
    SplitFirst("*", "", ',');
    var segments := Split("*", ',');
    assert segments == ["*"];
    assert TrimSpace("*") == "*";
    assert Cut("*", '/') == ("*", "", false) by { assert Cut(""[0..], '/') == ("", "", false); }
    assert SegmentMatches("*", v, kind, kind.Min(), kind.Max());
    assert SegmentMatches("*", kind.Min(), kind, kind.Min(), kind.Max());
  }

  // ----- what a match means

  /** Segment `i` of the field reads as a progression that has the value, and no segment before it is blank. */
  ghost predicate ListedAt(segments: seq<string>, i: nat, v: int, kind: Kind)
    requires i < |segments|
  {
    && (forall j :: 0 <= j <= i ==> TrimSpace(segments[j]) != "")
    && var reading := Reading(TrimSpace(segments[i]), kind, kind.Min(), kind.Max());
       reading.Some? && reading.value.Has(v)
  }

  ghost predicate Lists(segments: seq<string>, v: int, kind: Kind) {
    exists i: nat :: i < |segments| && ListedAt(segments, i, v, kind)
  }

  lemma {:induction false} SegmentsMean(segments: seq<string>, v: int, kind: Kind)
    requires kind.Min() <= v <= kind.Max()
    ensures SegmentsMatch(segments, v, kind, kind.Min(), kind.Max()) <==> Lists(segments, v, kind)
  {
    hide SegmentMatches, TrimSpace, Reading, Progression.Has;
    if segments != [] {
      var seg, rest := TrimSpace(segments[0]), segments[1..];
      SegmentIsProgression(seg, v, kind, kind.Min(), kind.Max());
      SegmentsMean(rest, v, kind);
      if SegmentsMatch(segments, v, kind, kind.Min(), kind.Max()) {
        if SegmentMatches(seg, v, kind, kind.Min(), kind.Max()) {
          assert ListedAt(segments, 0, v, kind);
        } else {
          var i: nat :| i < |rest| && ListedAt(rest, i, v, kind);
          ListedLater(segments, i, v, kind);
        }
      }
      if i: nat :| i < |segments| && ListedAt(segments, i, v, kind) {
        if i > 0 { ListedLater(segments, i - 1, v, kind); }
      }
    }
  }

  lemma ListedLater(segments: seq<string>, i: nat, v: int, kind: Kind)
    requires i + 1 < |segments| && TrimSpace(segments[0]) != ""
    ensures ListedAt(segments, i + 1, v, kind) <==> ListedAt(segments[1..], i, v, kind)
  {
    hide TrimSpace, Reading, Progression.Has;
    var rest := segments[1..];
    assert forall j :: 0 <= j < |rest| ==> rest[j] == segments[j + 1];
    assert forall j :: 0 < j < |segments| ==> segments[j] == rest[j - 1];
  }

  /** A field matches exactly the values of the progressions that its comma-separated segments read as. */
  lemma FieldMeans(field: string, v: int, kind: Kind)
    requires kind.Min() <= v <= kind.Max()
    ensures FieldMatches(field, v, kind) <==> Lists(Split(field, ','), v, kind)
  {
    SegmentsMean(Split(field, ','), v, kind);
  }

  /** The clock's weekday is in the field, where Sunday may also be written as 7. */
  predicate OnWeekday(field: string, weekday: int) {
    FieldMatches(field, weekday, Weekday) || (weekday == 0 && FieldMatches(field, 7, Weekday))
  }

  /** The expression has five fields, and minute, hour and month are in theirs. */
  predicate TimeMatches(expr: string, c: Civil) {
    && TrimSpace(expr) != "" && |Parts(expr)| == 5 && FieldMatches(Parts(expr)[0], c.minute, Minute)
    && FieldMatches(Parts(expr)[1], c.hour, Hour) && FieldMatches(Parts(expr)[3], c.month, Month)
  }

  /** When an expression matches a minute. With both day fields restricted either of them is enough; with
      one of them restricted it decides. */
  lemma MatchMeans(expr: string, c: Civil)
    ensures CronMatches(expr, c) ==> TimeMatches(expr, c)
    ensures TimeMatches(expr, c) ==>
      var dom, dow := Parts(expr)[2], Parts(expr)[4];
      && (dom != "*" && dow != "*" ==> (CronMatches(expr, c) <==> FieldMatches(dom, c.day, Day) || OnWeekday(dow, c.weekday)))
      && (dom != "*" && dow == "*" ==> (CronMatches(expr, c) <==> FieldMatches(dom, c.day, Day)))
      && (dom == "*" && dow != "*" ==> (CronMatches(expr, c) <==> OnWeekday(dow, c.weekday)))
      && (dom == "*" && dow == "*" ==> CronMatches(expr, c))
  {
    hide FieldMatches, Parts, TrimSpace;
    StarMatches(c.day, Day);
    StarMatches(c.weekday, Weekday);
  }

  const MONTHS := ["january", "february", "march", "april", "may", "june", "july", "august", "september", "october",
                   "november", "december"]

  const WEEKDAYS := ["sunday", "monday", "tuesday", "wednesday", "thursday", "friday", "saturday"]

  /** Months and weekdays may be written out, or with three letters. */
  lemma MonthsCount(i: nat)
    requires i < 12
    ensures |MONTHS[i]| >= 3 && MonthNumber(MONTHS[i][..3]) == Some(i + 1)
    ensures MonthNumber(MONTHS[i]) == Some(i + 1)
  {
    ShortMonths();
  }

  lemma ShortMonths()
    ensures forall i :: 0 <= i < 12 ==> |MONTHS[i]| >= 3
    ensures MONTHS[0][..3] == "jan" && MONTHS[1][..3] == "feb" && MONTHS[2][..3] == "mar" && MONTHS[3][..3] == "apr"
    ensures MONTHS[4][..3] == "may" && MONTHS[5][..3] == "jun" && MONTHS[6][..3] == "jul" && MONTHS[7][..3] == "aug"
    ensures MONTHS[8][..3] == "sep" && MONTHS[9][..3] == "oct" && MONTHS[10][..3] == "nov" && MONTHS[11][..3] == "dec"
  {
    assert "january"[..3] == "jan" && "february"[..3] == "feb" && "march"[..3] == "mar" && "april"[..3] == "apr";
    assert "may"[..3] == "may" && "june"[..3] == "jun" && "july"[..3] == "jul" && "august"[..3] == "aug";
    assert "september"[..3] == "sep" && "october"[..3] == "oct" && "november"[..3] == "nov" && "december"[..3] == "dec";
  }

  lemma WeekdaysCount(i: nat)
    requires i < 7
    ensures |WEEKDAYS[i]| >= 3 && WeekdayNumber(WEEKDAYS[i]) == WeekdayNumber(WEEKDAYS[i][..3]) == Some(i)
  {
    assert "sunday"[..3] == "sun" && "monday"[..3] == "mon" && "tuesday"[..3] == "tue" && "wednesday"[..3] == "wed";
    assert "thursday"[..3] == "thu" && "friday"[..3] == "fri" && "saturday"[..3] == "sat";
  }
}
