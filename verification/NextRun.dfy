/** The search for the next minute at which a cron expression fires. Time is the local wall clock
    in a zone with a fixed offset, counted from the start of year 1. */
module NextRun {
  import opened Strings
  import opened Cron
  import opened Calendar

  const DAY: nat := 24 * 60

  /** How many minutes the search looks at. */
  const HORIZON: nat := 366 * 24 * 60

  /** The wall clock at minute `t`. */
  function CivilAt(t: nat): Civil {
    var d := DateOf(t / DAY);
    Civil(d.year, d.month, d.day, t % DAY / 60, t % 60, WeekdayOf(t / DAY))
  }

  predicate Fires(expr: string, t: nat) { CronMatches(expr, CivilAt(t)) }

  /** `NextRun`, from a time in seconds: the earliest minute after `from`'s own that matches, if one
      of the next 366 days' minutes does. */
  method NextRun(expr: string, from: nat) returns (next: Option<nat>)
    ensures next.Some? ==> from / 60 < next.value <= from / 60 + 366 * 24 * 60 && Fires(expr, next.value)
    ensures next.Some? ==> forall t: nat :: from / 60 < t < next.value ==> !Fires(expr, t)
    ensures next.None? <==> forall t: nat :: from / 60 < t <= from / 60 + 366 * 24 * 60 ==> !Fires(expr, t)
  {
    hide CronMatches, CivilAt;
    if TrimSpace(expr) == "" {
      EmptyNeverFires(expr);
      return None;
    }
    var t := from / 60 + 1;
    for i := 0 to HORIZON
      invariant t == from / 60 + 1 + i
      invariant forall u: nat :: from / 60 < u < t ==> !Fires(expr, u)
    {
      if CronMatches(expr, CivilAt(t)) {
        return Some(t);
      }
      t := t + 1;
    }
    next := None;
  }

  lemma EmptyNeverFires(expr: string)
    requires TrimSpace(expr) == ""
    ensures forall t: nat :: !Fires(expr, t)
  {
  }

  // ----- when the search succeeds

  /** An expression that the server accepts, seen through the matcher's five fields. */
  ghost predicate Validated(expr: string) {
    TrimSpace(expr) != "" && |Parts(expr)| == 5 && forall i :: 0 <= i < 5 ==> FieldAccepted(Parts(expr)[i], KINDS[i])
  }

  /** A month and a day that both match and that every year has. */
  ghost predicate YearlyDate(parts: seq<string>, month: int, day: int)
    requires |parts| == 5
  {
    1 <= month <= 12 && 1 <= day <= ShortLength(month) && FieldMatches(parts[3], month, Month) && FieldMatches(parts[2], day, Day)
  }

  /** The weekday is restricted, or the day is not, or some matching date comes every year. */
  ghost predicate ComesEveryYear(parts: seq<string>)
    requires |parts| == 5
  {
    parts[4] != "*" || parts[2] == "*" || exists month, day :: YearlyDate(parts, month, day)
  }

  /** The time of day of the first minute and hour that match. */
  lemma TimeOfDay(parts: seq<string>) returns (tod: nat)
    requires |parts| == 5 && FieldAccepted(parts[0], Minute) && FieldAccepted(parts[1], Hour)
    ensures tod < DAY && FieldMatches(parts[0], tod % 60, Minute) && FieldMatches(parts[1], tod / 60, Hour)
  {
    var m := AcceptedFieldFires(parts[0], Minute);
    var h := AcceptedFieldFires(parts[1], Hour);
    tod := 60 * h + m;
    assert tod / 60 == h && tod % 60 == m;
  }

  lemma ClockAt(n: nat, tod: nat)
    requires tod < DAY
    ensures var c := CivilAt(n * DAY + tod); var d := DateOf(n);
      c == Civil(d.year, d.month, d.day, tod / 60, tod % 60, WeekdayOf(n))
  {
    hide DateOf;
    var t := n * DAY + tod;
    assert t / DAY == n && t % DAY == tod;
    assert t % 60 == tod % 60;
  }

  /** The time of day and the day both match. */
  predicate TimeAndDay(parts: seq<string>, d: Date, weekday: int, tod: nat)
    requires |parts| == 5
  {
    FieldMatches(parts[0], tod % 60, Minute) && FieldMatches(parts[1], tod / 60, Hour) &&
    FieldMatches(parts[3], d.month, Month) && DayMatches(parts[2], parts[4], d.day, weekday)
  }

  /** A day and a time of day that match make a minute that fires. */
  lemma DayFires(expr: string, n: nat, tod: nat, t: nat)
    requires t == n * DAY + tod
    requires TrimSpace(expr) != "" && |Parts(expr)| == 5 && tod < DAY
    requires TimeAndDay(Parts(expr), DateOf(n), WeekdayOf(n), tod)
    ensures Fires(expr, t)
  {
    hide DateOf, FieldMatches, DayMatches, Parts;
    ClockAt(n, tod);
  }

  /** With a restricted weekday some day within 365 days matches. */
  lemma WeekdayDay(parts: seq<string>, n: nat) returns (o: nat)
    requires |parts| == 5 && FieldAccepted(parts[3], Month) && FieldAccepted(parts[4], Weekday) && parts[4] != "*"
    ensures 1 <= o <= 365 && FieldMatches(parts[3], DateOf(n + o).month, Month)
    ensures DayMatches(parts[2], parts[4], DateOf(n + o).day, WeekdayOf(n + o))
  {
    hide DateOf, FieldMatches, FieldAccepted;
    var month := AcceptedFieldFires(parts[3], Month);
    var w := AcceptedWeekdayFires(parts[4]);
    o := WeekdayWithin(n, month, w);
    if parts[2] == "*" { StarMatches(DateOf(n + o).day, Day); }
  }

  /** A minute in the window on a yearly date, for any time of day. The window is just long enough:
      when today is the date and the time is past, the date may come back only after 366 days, but
      then at an earlier time of day than the window ends. */
  lemma YearlyMinute(from: nat, month: int, day: int, tod: nat) returns (n: nat)
    requires 1 <= month <= 12 && 1 <= day <= ShortLength(month) && tod < DAY
    ensures from < n * DAY + tod <= from + HORIZON && DateOf(n).month == month && DateOf(n).day == day
  {
    hide DateOf;
    var start := from + 1;
    var today, now := start / DAY, start % DAY;
    DistanceRight(today, month, day);
    var o := Distance(DateOf(today), month, day);
    if o == 0 && tod < now {
      DistanceRight(today + 1, month, day);
      n := today + 1 + Distance(DateOf(today + 1), month, day);
    } else {
      n := today + o;
    }
  }

  /** Whatever the starting time, an expression that comes every year fires within the horizon. */
  lemma FiresWithin(expr: string, from: nat) returns (t: nat)
    requires Validated(expr) && ComesEveryYear(Parts(expr))
    ensures from < t <= from + HORIZON && Fires(expr, t)
  {
    var parts := Parts(expr);
    hide DateOf, FieldMatches, FieldAccepted, Fires, DayMatches, Parts;
    assert FieldAccepted(parts[0], KINDS[0]) && FieldAccepted(parts[1], KINDS[1]) && FieldAccepted(parts[3], KINDS[3])
      && FieldAccepted(parts[4], KINDS[4]);
    var tod := TimeOfDay(parts);
    var n: nat;
    if parts[4] != "*" {
      var today := from / DAY;
      var o := WeekdayDay(parts, today);
      n := today + o;
      assert n * DAY <= from + 365 * DAY && from < n * DAY;
    } else {
      var month, day := SomeYearlyDate(parts);
      n := YearlyMinute(from, month, day, tod);
      BothMatch(parts, n);
    }
    t := n * DAY + tod;
    DayFires(expr, n, tod, t);
  }

  lemma SomeYearlyDate(parts: seq<string>) returns (month: int, day: int)
    requires |parts| == 5 && FieldAccepted(parts[3], Month) && parts[4] == "*" && ComesEveryYear(parts)
    ensures YearlyDate(parts, month, day)
  {
    hide FieldMatches, FieldAccepted;
    if parts[2] == "*" {
      month := AcceptedFieldFires(parts[3], Month);
      day := 1;
      StarMatches(1, Day);
    } else {
      month, day :| YearlyDate(parts, month, day);
    }
  }

  lemma BothMatch(parts: seq<string>, n: nat)
    requires |parts| == 5 && parts[4] == "*" && FieldMatches(parts[2], DateOf(n).day, Day)
    ensures DayMatches(parts[2], parts[4], DateOf(n).day, WeekdayOf(n))
  {
    hide DateOf, FieldMatches;
    StarMatches(WeekdayOf(n), Weekday);
  }

  lemma EarlyIsYearly(expr: string, t: nat)
    requires |Parts(expr)| == 5 && t <= HORIZON && Fires(expr, t)
    ensures ComesEveryYear(Parts(expr))
  {
    hide DateOf, FieldMatches, Parts;
    var parts := Parts(expr);
    if parts[4] == "*" && parts[2] != "*" {
      var d := DateOf(t / DAY);
      ShortStart(t / DAY);
      assert t / DAY <= 366;
      assert YearlyDate(parts, d.month, d.day);
    }
  }

  /** From the start of year 1, where no leap year is near, nothing else ever fires. */
  lemma NothingFiresEarly(expr: string, t: nat)
    requires |Parts(expr)| == 5 && !ComesEveryYear(Parts(expr)) && t <= HORIZON
    ensures !Fires(expr, t)
  {
    hide Fires, Parts, ComesEveryYear;
    if Fires(expr, t) {
      EarlyIsYearly(expr, t);
    }
  }

  ghost predicate FiresAfter(expr: string, from: nat) {
    exists t: nat :: from < t <= from + HORIZON && Fires(expr, t)
  }

  /** For an accepted expression, the search succeeds from every starting time if and only if the
      weekday is restricted, the day is not, or some date that every year has matches. */
  lemma NeverNil(expr: string)
    requires Validated(expr)
    ensures (forall from: nat :: FiresAfter(expr, from)) <==> ComesEveryYear(Parts(expr))
  {
    hide Fires, ComesEveryYear;
    if ComesEveryYear(Parts(expr)) {
      forall from: nat ensures FiresAfter(expr, from) {
        var t := FiresWithin(expr, from);
      }
    } else {
      forall t: nat | t <= HORIZON ensures !Fires(expr, t) { NothingFiresEarly(expr, t); }
      assert !FiresAfter(expr, 0);
    }
  }

  predicate LeapDay(n: nat) { DateOf(n).month == 2 && DateOf(n).day == 29 }

  /** 29 February matches, and day `n` is one, with a matching time of day after `from` and within the horizon. */
  predicate LeapMinute(parts: seq<string>, from: nat, n: nat, tod: nat)
    requires |parts| == 5
  {
    && FieldMatches(parts[3], 2, Month) && FieldMatches(parts[2], 29, Day) && LeapDay(n)
    && tod < DAY && from < n * DAY + tod <= from + HORIZON
    && FieldMatches(parts[0], tod % 60, Minute) && FieldMatches(parts[1], tod / 60, Hour)
  }

  /** What fires without coming every year fires on a 29 February. */
  lemma RareIsLeap(parts: seq<string>, n: nat)
    requires |parts| == 5 && !ComesEveryYear(parts)
    requires FieldMatches(parts[3], DateOf(n).month, Month)
    requires DayMatches(parts[2], parts[4], DateOf(n).day, WeekdayOf(n))
    ensures LeapDay(n) && FieldMatches(parts[2], 29, Day)
  {
    hide DateOf, FieldMatches;
    var d := DateOf(n);
    assert !YearlyDate(parts, d.month, d.day);
  }

  lemma RareFiresOnLeapDay(expr: string, from: nat, n: nat, tod: nat)
    requires |Parts(expr)| == 5 && !ComesEveryYear(Parts(expr)) && tod < DAY
    requires from < n * DAY + tod <= from + HORIZON && Fires(expr, n * DAY + tod)
    ensures LeapMinute(Parts(expr), from, n, tod)
  {
    hide DateOf, FieldMatches, DayMatches, Parts, ComesEveryYear;
    ClockAt(n, tod);
    RareIsLeap(Parts(expr), n);
  }

  lemma LeapMinuteFires(expr: string, from: nat, n: nat, tod: nat)
    requires Validated(expr) && !ComesEveryYear(Parts(expr)) && LeapMinute(Parts(expr), from, n, tod)
    ensures FiresAfter(expr, from)
  {
    hide DateOf, FieldMatches, DayMatches, Parts, Fires;
    BothMatch(Parts(expr), n);
    DayFires(expr, n, tod, n * DAY + tod);
  }

  /** For an accepted expression and a starting time: the search succeeds if and only if the expression
      comes every year, or 29 February matches and one with a matching time of day is near enough. */
  lemma SucceedsExactly(expr: string, from: nat)
    requires Validated(expr)
    ensures FiresAfter(expr, from) <==>
      ComesEveryYear(Parts(expr)) || exists n: nat, tod: nat :: LeapMinute(Parts(expr), from, n, tod)
  {
    hide Fires, ComesEveryYear, LeapMinute, Parts;
    if ComesEveryYear(Parts(expr)) {
      var t := FiresWithin(expr, from);
    } else {
      if t: nat :| from < t <= from + HORIZON && Fires(expr, t) {
        var n, tod := t / DAY, t % DAY;
        assert t == n * DAY + tod;
        RareFiresOnLeapDay(expr, from, n, tod);
      }
      if n: nat, tod: nat :| LeapMinute(Parts(expr), from, n, tod) {
        LeapMinuteFires(expr, from, n, tod);
      }
    }
  }

  // ----- what the server accepts is validated

  lemma FiveFields(a: char, b: char, c: char, d: char, e: char)
    requires !IsSpace(a) && !IsSpace(b) && !IsSpace(c) && !IsSpace(d) && !IsSpace(e)
    ensures Fields([a, ' ', b, ' ', c, ' ', d, ' ', e]) == [[a], [b], [c], [d], [e]]
  {
    var r1, r2, r3 := [b, ' ', c, ' ', d, ' ', e], [c, ' ', d, ' ', e], [d, ' ', e];
    assert [a, ' ', b, ' ', c, ' ', d, ' ', e] == [a, ' '] + r1;
    assert r1 == [b, ' '] + r2 && r2 == [c, ' '] + r3 && r3 == [d, ' '] + [e];
    OneField(a, r1);
    OneField(b, r2);
    OneField(c, r3);
    OneField(d, [e]);
    LastField(e);
  }

  lemma OneField(a: char, rest: string)
    requires !IsSpace(a)
    ensures FieldsFrom([a, ' '] + rest, "") == [[a]] + FieldsFrom(rest, "")
  {
    var s := [a, ' '] + rest;
    assert s[0] == a && s[1..][0] == ' ';
    assert s[1..] == [' '] + rest && s[1..][1..] == rest;
    assert FieldsFrom(s, "") == FieldsFrom(s[1..], "" + [a]);
    assert "" + [a] == [a];
  }

  lemma LastField(e: char)
    requires !IsSpace(e)
    ensures FieldsFrom([e], "") == [[e]]
  {
    assert [e][1..] == "" && "" + [e] == [e];
    assert FieldsFrom([e], "") == FieldsFrom([e][1..], "" + [e]);
  }

  lemma DigitAccepted(c: char, kind: Kind)
    requires c == '0' || c == '1'
    requires kind.Min() <= c as int - '0' as int <= kind.Max()
    ensures FieldAccepted([c], kind)
  {
    var s := [c];
    SplitFirst(s, "", ',');
    assert TrimSpace(s) == s;
    assert Cut(s, '/') == (s, "", false) && Cut(s, '-') == (s, "", false) by { assert s[1..] == ""; }
    assert ToLower(s) == s;
    assert ValueOf(s) == c as int - '0' as int by { assert s[..|s| - 1] == "" && ValueOf("") == 0; }
    assert Atoi(s) == Some(c as int - '0' as int);
    assert CronValue(s, kind) == Atoi(s);
    assert SegmentError(s, kind.Min(), kind.Max(), kind).None?;
    SegmentsAgree(s, kind, kind.Min(), kind.Max());
  }

  lemma MacroParts(expr: string)
    requires IsCronMacro(TrimSpace(expr))
    ensures |Parts(expr)| == 5 && forall i :: 0 <= i < 5 ==> FieldAccepted(Parts(expr)[i], KINDS[i])
  {
    hide Fields, FieldAccepted;
    FiveFields('0', '0', '1', '1', '*');
    FiveFields('0', '0', '1', '*', '*');
    FiveFields('0', '0', '*', '*', '0');
    FiveFields('0', '0', '*', '*', '*');
    FiveFields('0', '*', '*', '*', '*');
    DigitAccepted('0', Minute);
    DigitAccepted('0', Hour);
    DigitAccepted('1', Day);
    DigitAccepted('1', Month);
    DigitAccepted('0', Weekday);
    StarMatches(1, Hour);
    StarMatches(1, Day);
    StarMatches(1, Month);
    StarMatches(1, Weekday);
  }

  /** A field that is one digit matches that value and no other. */
  lemma DigitMatches(c: char, v: int, kind: Kind)
    requires c == '0' || c == '1'
    requires kind.Min() <= c as int - '0' as int <= kind.Max()
    ensures FieldMatches([c], v, kind) <==> v == c as int - '0' as int
  {
    var s := [c];
    SplitFirst(s, "", ',');
    assert TrimSpace(s) == s && ToLower(s) == s;
    assert Cut(s, '/') == (s, "", false) && Cut(s, '-') == (s, "", false) by { assert s[1..] == ""; }
    assert ValueOf(s) == c as int - '0' as int by { assert s[..|s| - 1] == "" && ValueOf("") == 0; }
    assert Atoi(s) == Some(c as int - '0' as int) && CronValue(s, kind) == Atoi(s);
    assert SegmentMatches(s, v, kind, kind.Min(), kind.Max()) <==> v == c as int - '0' as int;
    assert SegmentsMatch([s], v, kind, kind.Min(), kind.Max()) <==> SegmentMatches(s, v, kind, kind.Min(), kind.Max());
  }

  /** What the name of a macro promises. */
  predicate MacroMoment(name: string, c: Civil) {
    c.minute == 0 && (name == "@hourly" || (c.hour == 0 &&
      match name
      case "@weekly" => c.weekday == 0
      case "@monthly" => c.day == 1
      case "@yearly" => c.day == 1 && c.month == 1
      case "@annually" => c.day == 1 && c.month == 1
      case _ => true))
  }

  /** A macro matches exactly the minutes that its name says: the first of every hour, day, week, month
      or year. */
  lemma {:induction false} MacroMeans(expr: string, c: Civil)
    requires IsCronMacro(TrimSpace(expr)) && 0 <= c.weekday <= 6
    ensures CronMatches(expr, c) <==> MacroMoment(ToLower(TrimSpace(TrimSpace(expr))), c)
  {
    hide Fields, FieldMatches;
    FiveFields('0', '0', '1', '1', '*');
    FiveFields('0', '0', '1', '*', '*');
    FiveFields('0', '0', '*', '*', '0');
    FiveFields('0', '0', '*', '*', '*');
    FiveFields('0', '*', '*', '*', '*');
    DigitMatches('0', c.minute, Minute);
    DigitMatches('0', c.hour, Hour);
    DigitMatches('1', c.day, Day);
    DigitMatches('1', c.month, Month);
    DigitMatches('0', c.weekday, Weekday);
    DigitMatches('0', 7, Weekday);
    StarMatches(c.hour, Hour);
    StarMatches(c.day, Day);
    StarMatches(c.month, Month);
    StarMatches(c.weekday, Weekday);
  }

  const EVERY_MINUTE := "* * * * *"

  lemma EveryMinuteFires(t: nat)
    ensures Fires(EVERY_MINUTE, t)
  {
    hide Fields, FieldMatches, DateOf;
    assert EVERY_MINUTE == ['*', ' ', '*', ' ', '*', ' ', '*', ' ', '*'];
    assert TrimSpace(EVERY_MINUTE) == EVERY_MINUTE;
    assert ToLower(EVERY_MINUTE)[0] == '*';
    FiveFields('*', '*', '*', '*', '*');
    var c := CivilAt(t);
    StarMatches(c.minute, Minute);
    StarMatches(c.hour, Hour);
    StarMatches(c.day, Day);
    StarMatches(c.month, Month);
    StarMatches(c.weekday, Weekday);
  }

  /** An expression the server's validator accepts is one the matcher can work with. */
  lemma AcceptedIsValidated(expr: string)
    requires ExprAccepted(expr)
    ensures Validated(expr)
  {
    hide FieldAccepted, Fields;
    TrimTwice(expr);
    if IsCronMacro(expr) {
      MacroParts(expr);
      assert ToLower(TrimSpace(expr)) in MACROS;
    } else {
      assert Fields("") == [] by { NoFields(); }
    }
  }

  lemma NoFields()
    ensures Fields("") == []
  {
  }
}
