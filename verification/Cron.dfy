/** Cron expressions (scheduling.py): field parsing, the either-day rule and the bounded search. */
module Cron {
  import opened Wrappers
  import opened Texts
  import opened Calendar

  // ----- fields -----

  /** The position of the first `c`, or the length of `s`. */
  function IndexOf(s: string, c: char): (i: nat)
    ensures i <= |s| && (i < |s| ==> s[i] == c) && c !in s[..i]
  {
    if s == "" || s[0] == c then 0 else
      var i := IndexOf(s[1..], c);
      assert s[..i + 1] == [s[0]] + s[1..][..i];
      i + 1
  }

  predicate IsDigit(c: char) {
    '0' <= c <= '9'
  }

  /** Decimal digits, with single underscores allowed between digits. */
  function ParseDigits(s: string): Option<nat> {
    if s == "" || !IsDigit(s[|s| - 1]) then None
    else
      var init, digit := s[..|s| - 1], s[|s| - 1] as int - '0' as int;
      if init == "" then Some(digit)
      else
        var rest := if init[|init| - 1] == '_' then ParseDigits(init[..|init| - 1]) else ParseDigits(init);
        match rest
        case None => None
        case Some(n) => Some(n * 10 + digit)
  }

  /** Python's `int()` on a text without white space, in ASCII. */
  function ParseInt(s: string): Option<int> {
    if s == "" then None
    else
      var negative := s[0] == '-';
      match ParseDigits(if negative || s[0] == '+' then s[1..] else s)
      case None => None
      case Some(n) =>
        var value: int := if negative then -(n as int) else n;
        Some(value)
  }

  /** One comma-separated part: from `start` to `end` in steps. */
  datatype Span = Span(start: int, end: int, step: int)

  /** What stands before the step: `*`, `a-b` or `a`. */
  function ParseBase(base: string, minimum: int, maximum: int): Option<(int, int)> {
    if base == "*" then Some((minimum, maximum))
    else
      var dash := IndexOf(base, '-');
      var start := ParseInt(base[..dash]);
      var end := if dash < |base| then ParseInt(base[dash + 1..]) else start;
      if start.Some? && end.Some? then Some((start.value, end.value)) else None
  }

  function ParseSpan(part: string, minimum: int, maximum: int): Option<Span> {
    var slash := IndexOf(part, '/');
    var step := if slash < |part| then ParseInt(part[slash + 1..]) else Some(1);
    if step.None? || step.value < 1 then None
    else
      match ParseBase(part[..slash], minimum, maximum)
      case None => None
      case Some((start, end)) =>
        if start < minimum || end > maximum || start > end then None else Some(Span(start, end, step.value))
  }

  predicate InSpan(v: int, span: Span) {
    span.step >= 1 && span.start <= v <= span.end && (v - span.start) % span.step == 0
  }

  lemma SpanFacts(part: string, minimum: int, maximum: int)
    ensures var r := ParseSpan(part, minimum, maximum);
            r.Some? ==> minimum <= r.value.start <= r.value.end <= maximum && r.value.step >= 1 && InSpan(r.value.start, r.value)
  {
  }

  // ----- writing spans down and reading them back -----

  lemma {:induction false} DecimalParses(n: nat)
    ensures Decimal(n) != "" && (forall i :: 0 <= i < |Decimal(n)| ==> IsDigit(Decimal(n)[i]))
    ensures ParseDigits(Decimal(n)) == Some(n) && ParseInt(Decimal(n)) == Some(n)
  {
    if n >= 10 {
      DecimalParses(n / 10);
      var s := Decimal(n);
      assert s[..|s| - 1] == Decimal(n / 10);
      assert IsDigit(Decimal(n / 10)[|s| - 2]);
    }
  }

  lemma {:induction false} IndexAfter(prefix: string, c: char, rest: string)
    requires c !in prefix
    ensures IndexOf(prefix + [c] + rest, c) == |prefix|
  {
    if prefix == "" {
    } else {
      assert (prefix + [c] + rest)[1..] == prefix[1..] + [c] + rest;
      IndexAfter(prefix[1..], c, rest);
    }
  }

  lemma {:induction false} IndexAbsent(s: string, c: char)
    requires c !in s
    ensures IndexOf(s, c) == |s|
  {
    if s == "" {
    } else {
      IndexAbsent(s[1..], c);
    }
  }

  lemma SlashParses(base: string, stepText: string, minimum: int, maximum: int)
    requires '/' !in base
    ensures IndexOf(base + "/" + stepText, '/') == |base|
    ensures (base + "/" + stepText)[..|base|] == base && (base + "/" + stepText)[|base| + 1..] == stepText
    ensures IndexOf(base, '/') == |base| && base[..|base|] == base
  {
    IndexAfter(base, '/', stepText);
    IndexAbsent(base, '/');
    assert base + ['/'] + stepText == base + "/" + stepText;
  }

  lemma DashParses(start: string, end: string, minimum: int, maximum: int)
    requires '-' !in start && ParseInt(start).Some? && ParseInt(end).Some?
    ensures ParseBase(start + "-" + end, minimum, maximum) == Some((ParseInt(start).value, ParseInt(end).value))
  {
    var base := start + "-" + end;
    IndexAfter(start, '-', end);
    assert start + ['-'] + end == base;
    assert base[..|start|] == start && base[|start| + 1..] == end;
    assert base[|start|] == '-';
  }

  lemma DigitsOnly(n: nat)
    ensures '-' !in Decimal(n) && '/' !in Decimal(n) && Decimal(n) != "*" && Decimal(n) != ""
    ensures ParseInt(Decimal(n)) == Some(n)
  {
    DecimalParses(n);
    assert IsDigit(Decimal(n)[0]);
  }

  /** `a` alone allows just a. */
  lemma NumberParses(n: nat, minimum: int, maximum: int)
    requires minimum <= n <= maximum
    ensures ParseSpan(Decimal(n), minimum, maximum) == Some(Span(n, n, 1))
  {
    DigitsOnly(n);
    IndexAbsent(Decimal(n), '-');
    SlashParses(Decimal(n), "", minimum, maximum);
    assert ParseBase(Decimal(n), minimum, maximum) == Some((n as int, n as int));
  }

  lemma RangeBase(start: nat, end: nat, minimum: int, maximum: int)
    ensures var base := Decimal(start) + "-" + Decimal(end);
            '/' !in base && ParseBase(base, minimum, maximum) == Some((start as int, end as int))
  {
    DigitsOnly(start);
    DigitsOnly(end);
    DashParses(Decimal(start), Decimal(end), minimum, maximum);
  }

  /** Writing a span as `a-b/s`, or `a-b` for steps of one, and reading it back gives the span. */
  lemma SpanRoundTrip(start: nat, end: nat, step: nat, minimum: int, maximum: int)
    requires minimum <= start <= end <= maximum && step >= 1
    ensures ParseSpan(Decimal(start) + "-" + Decimal(end) + "/" + Decimal(step), minimum, maximum) == Some(Span(start, end, step))
    ensures ParseSpan(Decimal(start) + "-" + Decimal(end), minimum, maximum) == Some(Span(start, end, 1))
  {
    var base := Decimal(start) + "-" + Decimal(end);
    RangeBase(start, end, minimum, maximum);
    DigitsOnly(step);
    SlashParses(base, Decimal(step), minimum, maximum);
  }

  /** A star with a step of s means the whole range in steps of s. */
  lemma StarStepParses(step: nat, minimum: int, maximum: int)
    requires minimum <= maximum && step >= 1
    ensures ParseSpan("*/" + Decimal(step), minimum, maximum) == Some(Span(minimum, maximum, step))
  {
    DigitsOnly(step);
    SlashParses("*", Decimal(step), minimum, maximum);
    assert "*" + "/" + Decimal(step) == "*/" + Decimal(step);
  }

  /** A number with a step is that number alone. */
  lemma NumberStepParses(n: nat, step: nat, minimum: int, maximum: int)
    requires minimum <= n <= maximum && step >= 1
    ensures ParseSpan(Decimal(n) + "/" + Decimal(step), minimum, maximum) == Some(Span(n, n, step))
  {
    DigitsOnly(n);
    DigitsOnly(step);
    IndexAbsent(Decimal(n), '-');
    SlashParses(Decimal(n), Decimal(step), minimum, maximum);
  }

  /** A sign may stand before a number. */
  lemma SignedParses(n: nat)
    ensures ParseInt("+" + Decimal(n)) == Some(n) && ParseInt("-" + Decimal(n)) == Some(-(n as int))
  {
    DecimalParses(n);
    assert ("+" + Decimal(n))[1..] == Decimal(n) && ("-" + Decimal(n))[1..] == Decimal(n);
  }

  /** An underscore may stand between digits, and nowhere else. */
  lemma UnderscoreParses(s: string, d: nat)
    requires ParseDigits(s).Some? && d < 10
    ensures ParseDigits(s + "_" + [Digit(d)]) == Some(ParseDigits(s).value * 10 + d)
    ensures ParseDigits(s + "_") == None && ParseDigits("_" + [Digit(d)]) == None
  {
    var t := s + "_" + [Digit(d)];
    assert t[..|t| - 1] == s + "_" && (s + "_")[..|s|] == s;
    var u := "_" + [Digit(d)];
    assert u[..|u| - 1] == "_" && "_"[..0] == "" && ParseDigits("") == None;
  }

  function Spans(field: string, minimum: int, maximum: int): (spans: seq<Option<Span>>)
    ensures |spans| == |SplitOn(field, ',')|
  {
    var parts := SplitOn(field, ',');
    seq(|parts|, i requires 0 <= i < |parts| => ParseSpan(parts[i], minimum, maximum))
  }

  /** One of the first `upTo` spans contains `v`. */
  ghost predicate AllowedBy(spans: seq<Option<Span>>, upTo: nat, v: int)
    requires upTo <= |spans|
  {
    exists i :: 0 <= i < upTo && spans[i].Some? && InSpan(v, spans[i].value)
  }

  ghost predicate AllParse(spans: seq<Option<Span>>, upTo: nat)
    requires upTo <= |spans|
  {
    forall i :: 0 <= i < upTo ==> spans[i].Some?
  }

  /** `v` is allowed by the field: some part's span contains it. */
  ghost predicate Allows(field: string, minimum: int, maximum: int, v: int) {
    var spans := Spans(field, minimum, maximum);
    AllowedBy(spans, |spans|, v)
  }

  ghost predicate WellFormedField(field: string, minimum: int, maximum: int) {
    var spans := Spans(field, minimum, maximum);
    AllParse(spans, |spans|)
  }

  function SpanValues(span: Span): set<int> {
    set v | span.start <= v <= span.end && InSpan(v, span)
  }

  /** What `_cron_values` has collected after `upTo` parts. */
  ghost predicate Collected(spans: seq<Option<Span>>, upTo: nat, minimum: int, maximum: int, values: set<int>)
    requires upTo <= |spans|
  {
    && AllParse(spans, upTo)
    && (forall v :: v in values <==> AllowedBy(spans, upTo, v))
    && (forall v :: v in values ==> minimum <= v <= maximum)
    && (upTo > 0 ==> exists v :: v in values)
  }

  lemma CollectOne(spans: seq<Option<Span>>, i: nat, minimum: int, maximum: int, values: set<int>, span: Span)
    requires i < |spans| && Collected(spans, i, minimum, maximum, values)
    requires spans[i] == Some(span) && minimum <= span.start <= span.end <= maximum && InSpan(span.start, span)
    ensures Collected(spans, i + 1, minimum, maximum, values + SpanValues(span))
  {
    var more := values + SpanValues(span);
    forall v ensures v in more <==> AllowedBy(spans, i + 1, v) {
      assert AllowedBy(spans, i + 1, v) <==> AllowedBy(spans, i, v) || InSpan(v, span);
    }
    assert span.start in more;
  }

  /** `_cron_values`: the union of the parts, each of which must parse. */
  method CronValues(field: string, minimum: int, maximum: int) returns (r: Option<set<int>>)
    requires minimum <= maximum
    ensures r.Some? <==> WellFormedField(field, minimum, maximum)
    ensures r.Some? ==> forall v :: v in r.value <==> Allows(field, minimum, maximum, v)
    ensures r.Some? ==> (exists v :: v in r.value) && forall v :: v in r.value ==> minimum <= v <= maximum
  {
    var parts := SplitOn(field, ',');
    ghost var spans := Spans(field, minimum, maximum);
    var values: set<int> := {};
    for i := 0 to |parts|
      invariant Collected(spans, i, minimum, maximum, values)
    {
      var span := ParseSpan(parts[i], minimum, maximum);
      assert spans[i] == span;
      if span.None? {
        return None;
      }
      SpanFacts(parts[i], minimum, maximum);
      CollectOne(spans, i, minimum, maximum, values, span.value);
      values := values + SpanValues(span.value);
    }
    r := Some(values);
  }

  lemma AllowedByCons(first: Option<Span>, tail: seq<Option<Span>>, v: int)
    ensures AllowedBy([first] + tail, |tail| + 1, v) <==> (first.Some? && InSpan(v, first.value)) || AllowedBy(tail, |tail|, v)
    ensures AllParse([first] + tail, |tail| + 1) <==> first.Some? && AllParse(tail, |tail|)
  {
    var whole := [first] + tail;
    if AllowedBy(tail, |tail|, v) {
      var i :| 0 <= i < |tail| && tail[i].Some? && InSpan(v, tail[i].value);
      assert whole[i + 1] == tail[i];
    }
    if AllowedBy(whole, |whole|, v) {
      var i :| 0 <= i < |whole| && whole[i].Some? && InSpan(v, whole[i].value);
      assert i > 0 ==> whole[i] == tail[i - 1];
    }
    if first.Some? && InSpan(v, first.value) {
      assert whole[0] == first;
    }
    if AllParse(whole, |whole|) {
      assert whole[0].Some?;
      forall i | 0 <= i < |tail| ensures tail[i].Some? { assert whole[i + 1] == tail[i]; }
    }
    if first.Some? && AllParse(tail, |tail|) {
      forall i | 0 <= i < |whole| ensures whole[i].Some? { assert i > 0 ==> whole[i] == tail[i - 1]; }
    }
  }

  /** A comma unites what its two sides allow, and both sides have to parse. */
  lemma CommaUnites(part: string, rest: string, minimum: int, maximum: int, v: int)
    requires ',' !in part
    ensures WellFormedField(part + "," + rest, minimum, maximum) <==>
            ParseSpan(part, minimum, maximum).Some? && WellFormedField(rest, minimum, maximum)
    ensures Allows(part + "," + rest, minimum, maximum, v) <==>
            (ParseSpan(part, minimum, maximum).Some? && InSpan(v, ParseSpan(part, minimum, maximum).value)) || Allows(rest, minimum, maximum, v)
  {
    SplitFirst(part, rest, ',');
    assert part + [','] + rest == part + "," + rest;
    var first, tail := ParseSpan(part, minimum, maximum), Spans(rest, minimum, maximum);
    assert Spans(part + "," + rest, minimum, maximum) == [first] + tail;
    AllowedByCons(first, tail, v);
  }

  /** A lone `*` admits the whole range. */
  lemma StarAllowsAll(minimum: int, maximum: int, v: int)
    requires minimum <= v <= maximum
    ensures Allows("*", minimum, maximum, v)
  {
    var parts := SplitOn("*", ',');
    assert "*"[1..] == "" && SplitOn("", ',') == [""];
    assert ['*'] + "" == "*";
    assert parts == ["*"];
    assert IndexOf("*", '/') == 1;
    assert "*"[..1] == "*";
    assert ParseSpan("*", minimum, maximum) == Some(Span(minimum, maximum, 1));
    assert InSpan(v, Span(minimum, maximum, 1));
    assert Spans("*", minimum, maximum)[0] == Some(Span(minimum, maximum, 1));
    assert AllowedBy(Spans("*", minimum, maximum), 1, v);
  }

  /** The parsed expression. */
  datatype Schedule = Schedule(minutes: set<int>, hours: set<int>, days: set<int>, months: set<int>, weekdays: set<int>,
                               anyDay: bool, anyWeekday: bool)

  /** What parsing guarantees: no empty field, values in range, and a lone `*` admits everything. */
  ghost predicate Parsed(s: Schedule) {
    && (exists v :: v in s.minutes) && (exists v :: v in s.hours) && (exists v :: v in s.days)
    && (exists v :: v in s.months) && (exists v :: v in s.weekdays)
    && (forall v :: v in s.minutes ==> 0 <= v <= 59) && (forall v :: v in s.hours ==> 0 <= v <= 23)
    && (forall v :: v in s.days ==> 1 <= v <= 31) && (forall v :: v in s.months ==> 1 <= v <= 12)
    && (forall v :: v in s.weekdays ==> 0 <= v <= 7) && (7 in s.weekdays ==> 0 in s.weekdays)
    && (s.anyDay ==> forall v :: 1 <= v <= 31 ==> v in s.days)
    && (s.anyWeekday ==> forall v :: 0 <= v <= 6 ==> v in s.weekdays)
  }

  /** The schedule is the one the five fields describe; weekday 7 is Sunday too. */
  ghost predicate Describes(fields: seq<string>, s: Schedule) {
    && |fields| == 5
    && (forall v :: v in s.minutes <==> Allows(fields[0], 0, 59, v))
    && (forall v :: v in s.hours <==> Allows(fields[1], 0, 23, v))
    && (forall v :: v in s.days <==> Allows(fields[2], 1, 31, v))
    && (forall v :: v in s.months <==> Allows(fields[3], 1, 12, v))
    && (forall v :: v in s.weekdays <==> Allows(fields[4], 0, 7, v) || (v == 0 && Allows(fields[4], 0, 7, 7)))
    && s.anyDay == (fields[2] == "*") && s.anyWeekday == (fields[4] == "*")
  }

  ghost predicate WellFormedExpression(fields: seq<string>) {
    && |fields| == 5
    && WellFormedField(fields[0], 0, 59) && WellFormedField(fields[1], 0, 23) && WellFormedField(fields[2], 1, 31)
    && WellFormedField(fields[3], 1, 12) && WellFormedField(fields[4], 0, 7)
  }

  /** Lines 37-49 and 52-53, from the white-space separated fields on. */
  method ParseExpression(fields: seq<string>) returns (r: Option<Schedule>)
    ensures r.Some? <==> WellFormedExpression(fields)
    ensures r.Some? ==> Describes(fields, r.value) && Parsed(r.value)
  {
    if |fields| != 5 {
      return None;
    }
    var minutes := CronValues(fields[0], 0, 59);
    var hours := CronValues(fields[1], 0, 23);
    var days := CronValues(fields[2], 1, 31);
    var months := CronValues(fields[3], 1, 12);
    var weekdays := CronValues(fields[4], 0, 7);
    if minutes.None? || hours.None? || days.None? || months.None? || weekdays.None? {
      return None;
    }
    var sundays := if 7 in weekdays.value then weekdays.value + {0} else weekdays.value;
    forall v | 1 <= v <= 31 && fields[2] == "*" ensures v in days.value { StarAllowsAll(1, 31, v); }
    forall v | 0 <= v <= 7 && fields[4] == "*" ensures v in weekdays.value { StarAllowsAll(0, 7, v); }
    r := Some(Schedule(minutes.value, hours.value, days.value, months.value, sundays, fields[2] == "*", fields[4] == "*"));
  }

  // ----- matching and searching -----

  /** `(candidate.weekday() + 1) % 7`, with `weekday()` counting from Monday. */
  function CronWeekday(m: Moment): int {
    ((Ordinal(m) + 6) % 7 + 1) % 7
  }

  predicate CalendarMatch(s: Schedule, m: Moment) {
    var dayMatch, weekdayMatch := m.day in s.days, CronWeekday(m) in s.weekdays;
    if !s.anyDay && !s.anyWeekday then dayMatch || weekdayMatch else dayMatch && weekdayMatch
  }

  predicate Matches(s: Schedule, m: Moment) {
    m.minute in s.minutes && m.hour in s.hours && m.month in s.months && CalendarMatch(s, m)
  }

  const SEARCH_MINUTES := 60 * 24 * 366 * 2

  /** `m` lies among the minutes that a search from `after` looks at. */
  predicate InWindow(after: Moment, m: Moment) {
    Valid(m) && Minutes(after) < Minutes(m) <= Minutes(after) + SEARCH_MINUTES
  }

  /**
   Lines 50-70 on the zone's clock: the least matching minute after `after`, whose seconds have been cut off;
   `None` exactly when none of the next 732 days' minutes matches. Python's calendar ends with the year 9999.
   */
  method NextTime(s: Schedule, after: Moment) returns (r: Option<Moment>)
    requires Valid(after) && after.year <= 9996
    ensures r.Some? ==> Earliest(s, after, r.value)
    ensures r.None? ==> forall m :: InWindow(after, m) ==> !Matches(s, m)
  {
    TickAddsOne(after);
    var candidate := Tick(after);
    for i := 0 to SEARCH_MINUTES
      invariant Valid(candidate) && Minutes(candidate) == Minutes(after) + 1 + i
      invariant forall m :: InWindow(after, m) && Minutes(m) < Minutes(candidate) ==> !Matches(s, m)
    {
      if Matches(s, candidate) {
        return Some(candidate);
      }
      TickAddsOne(candidate);
      forall m | InWindow(after, m) && Minutes(m) < Minutes(candidate) + 1 ensures !Matches(s, m) {
        if Minutes(m) == Minutes(candidate) { MinutesInjective(m, candidate); }
      }
      candidate := Tick(candidate);
    }
    r := None;
  }

  /** `m` is the least minute of the window that matches. */
  ghost predicate Earliest(s: Schedule, after: Moment, m: Moment) {
    && InWindow(after, m) && Matches(s, m)
    && forall x :: InWindow(after, x) && Matches(s, x) ==> Minutes(m) <= Minutes(x)
  }

  // ----- the same, read off the fields' text -----

  ghost predicate WeekdayAllowed(field: string, m: Moment) {
    Allows(field, 0, 7, CronWeekday(m)) || (CronWeekday(m) == 0 && Allows(field, 0, 7, 7))
  }

  /** The day is right: where one of the two day fields is a lone `*` the other decides, and where both are restricted either may. */
  ghost predicate RightDay(fields: seq<string>, m: Moment)
    requires |fields| == 5
  {
    if fields[2] == "*" then WeekdayAllowed(fields[4], m)
    else if fields[4] == "*" then Allows(fields[2], 1, 31, m.day)
    else Allows(fields[2], 1, 31, m.day) || WeekdayAllowed(fields[4], m)
  }

  /** The expression fires at this minute. */
  ghost predicate Fires(fields: seq<string>, m: Moment)
    requires |fields| == 5
  {
    && Allows(fields[0], 0, 59, m.minute) && Allows(fields[1], 0, 23, m.hour) && Allows(fields[3], 1, 12, m.month)
    && RightDay(fields, m)
  }

  /** What the search looks for is that the expression fires; months always restrict. */
  lemma MatchesMeansFires(fields: seq<string>, s: Schedule, m: Moment)
    requires Describes(fields, s) && Valid(m)
    ensures Matches(s, m) <==> Fires(fields, m)
  {
    assert 0 <= CronWeekday(m) <= 6;
    if fields[2] == "*" { StarAllowsAll(1, 31, m.day); }
    if fields[4] == "*" { StarAllowsAll(0, 7, CronWeekday(m)); }
  }

  datatype CronError = InvalidExpression | NoOccurrence

  /** The least minute of the window at which the expression fires. */
  ghost predicate FirstFiring(fields: seq<string>, after: Moment, m: Moment)
    requires |fields| == 5
  {
    && InWindow(after, m) && Fires(fields, m)
    && forall x :: InWindow(after, x) && Fires(fields, x) ==> Minutes(m) <= Minutes(x)
  }

  lemma EarliestIsFirstFiring(fields: seq<string>, s: Schedule, after: Moment, m: Moment)
    requires Describes(fields, s) && Earliest(s, after, m)
    ensures FirstFiring(fields, after, m)
  {
    MatchesMeansFires(fields, s, m);
    forall x | InWindow(after, x) && Fires(fields, x) ensures Minutes(m) <= Minutes(x) {
      MatchesMeansFires(fields, s, x);
    }
  }

  /** `next_cron_time` in a zone `offset` minutes ahead of UTC: the answer in UTC minutes. */
  method NextCronTime(fields: seq<string>, offset: int, after: Moment) returns (r: Result<int, CronError>)
    requires Valid(after) && after.year <= 9996
    ensures r == Err(InvalidExpression) <==> !WellFormedExpression(fields)
    ensures r.Ok? ==> exists m :: FirstFiring(fields, after, m) && r.value == Minutes(m) - offset
    ensures r == Err(NoOccurrence) ==> forall m :: InWindow(after, m) ==> !Fires(fields, m)
  {
    var s := ParseExpression(fields);
    if s.None? {
      return Err(InvalidExpression);
    }
    var m := NextTime(s.value, after);
    if m.None? {
      forall x | InWindow(after, x) ensures !Fires(fields, x) { MatchesMeansFires(fields, s.value, x); }
      return Err(NoOccurrence);
    }
    EarliestIsFirstFiring(fields, s.value, after, m.value);
    r := Ok(Minutes(m.value) - offset);
  }

  /**
   With both day fields restricted, the answer is never later than the next chosen day of the month, nor than the next chosen
   weekday, at a chosen time in a chosen month.
   */
  lemma EitherDayWillDo(fields: seq<string>, after: Moment, m: Moment, x: Moment)
    requires |fields| == 5 && fields[2] != "*" && fields[4] != "*" && FirstFiring(fields, after, m) && InWindow(after, x)
    requires Allows(fields[0], 0, 59, x.minute) && Allows(fields[1], 0, 23, x.hour) && Allows(fields[3], 1, 12, x.month)
    requires Allows(fields[2], 1, 31, x.day) || Allows(fields[4], 0, 7, CronWeekday(x))
    ensures Minutes(m) <= Minutes(x)
  {
  }

  // ----- when the search succeeds -----

  ghost predicate Findable(s: Schedule, after: Moment) {
    exists m :: InWindow(after, m) && Matches(s, m)
  }

  /** Some chosen day exists in some chosen month every year. */
  ghost predicate HasYearlyDay(s: Schedule) {
    exists month, day :: month in s.months && day in s.days && day <= ShortestLength(month)
  }

  /** Any minute of the coming calendar year is within the search. */
  lemma NextYearIsInWindow(after: Moment, m: Moment)
    requires Valid(after) && Valid(m) && m.year == after.year + 1
    ensures InWindow(after, m)
  {
    WithinYear(after);
    WithinYear(m);
    YearLength(after.year);
    YearLength(m.year);
  }

  lemma CronWeekdayIsOrdinal(m: Moment)
    ensures CronWeekday(m) == Ordinal(m) % 7
  {
  }

  /** The weekday moves on by one each day, and 9 August 2026 is a Sunday. */
  lemma WeekdaysFollow(today: Moment, tomorrow: Moment)
    requires Ordinal(tomorrow) == Ordinal(today) + 1
    ensures CronWeekday(tomorrow) == if CronWeekday(today) == 6 then 0 else CronWeekday(today) + 1
    ensures CronWeekday(Moment(2026, 8, 9, 0, 0)) == 0
  {
    assert DaysBeforeMonth(2026, 4) == 90;
    assert DaysBeforeMonth(2026, 7) == 181;
  }

  lemma ShiftTo(o: int, weekday: int)
    requires 0 <= weekday <= 6
    ensures 0 <= (weekday - o) % 7 <= 6 && (o + (weekday - o) % 7) % 7 == weekday
  {
  }

  /** Every weekday falls into the first seven days of a month. */
  lemma WeekdayInFirstWeek(year: int, month: int, weekday: int, hour: int, minute: int) returns (m: Moment)
    requires year >= 1 && 1 <= month <= 12 && 0 <= weekday <= 6 && 0 <= hour < 24 && 0 <= minute < 60
    ensures Valid(m) && m.year == year && m.month == month && m.hour == hour && m.minute == minute
    ensures CronWeekday(m) == weekday
  {
    var first := Moment(year, month, 1, hour, minute);
    var o := Ordinal(first);
    var shift := (weekday - o) % 7;
    m := first.(day := 1 + shift);
    ShiftTo(o, weekday);
    assert Ordinal(m) == o + shift;
    CronWeekdayIsOrdinal(m);
  }

  lemma WeekdayIsFindable(s: Schedule, after: Moment)
    requires Parsed(s) && !s.anyWeekday && Valid(after)
    ensures Findable(s, after)
  {
    var minute :| minute in s.minutes;
    var hour :| hour in s.hours;
    var month :| month in s.months;
    var chosen :| chosen in s.weekdays;
    var weekday := if chosen == 7 then 0 else chosen;
    var m := WeekdayInFirstWeek(after.year + 1, month, weekday, hour, minute);
    NextYearIsInWindow(after, m);
    assert Matches(s, m);
  }

  lemma YearlyDayIsFindable(s: Schedule, after: Moment)
    requires Parsed(s) && s.anyWeekday && HasYearlyDay(s) && Valid(after)
    ensures Findable(s, after)
  {
    var minute :| minute in s.minutes;
    var hour :| hour in s.hours;
    var month, day :| month in s.months && day in s.days && day <= ShortestLength(month);
    var m := Moment(after.year + 1, month, day, hour, minute);
    NextYearIsInWindow(after, m);
    assert 0 <= CronWeekday(m) <= 6;
    assert Matches(s, m);
  }

  /** From New Year 2025 the search ends before the next leap day. */
  lemma NoLeapDayAhead(s: Schedule, m: Moment)
    requires Parsed(s) && s.anyWeekday && !HasYearlyDay(s)
    requires InWindow(Moment(2025, 1, 1, 0, 0), m)
    ensures !Matches(s, m)
  {
    var after := Moment(2025, 1, 1, 0, 0);
    assert Ordinal(m) <= Ordinal(after) + 732;
    WithinYear(m);
    if m.year >= 2028 { YearsAscend(2028, m.year); }
    if m.year < 2025 { YearsAscend(m.year + 1, 2025); }
    assert 2025 <= m.year <= 2027;
    assert m.day <= ShortestLength(m.month);
  }

  /**
   A search succeeds from every moment exactly when the weekday field is not a lone `*`, or some chosen day
   exists in some chosen month every year.
   */
  lemma SearchAlwaysSucceedsIff(s: Schedule)
    requires Parsed(s)
    ensures (forall after :: Valid(after) ==> Findable(s, after)) <==> !s.anyWeekday || HasYearlyDay(s)
  {
    if !s.anyWeekday || HasYearlyDay(s) {
      forall after | Valid(after) ensures Findable(s, after) {
        if s.anyWeekday { YearlyDayIsFindable(s, after); } else { WeekdayIsFindable(s, after); }
      }
    } else {
      var after := Moment(2025, 1, 1, 0, 0);
      assert Valid(after);
      forall m | InWindow(after, m) ensures !Matches(s, m) {
        NoLeapDayAhead(s, m);
      }
      assert !Findable(s, after);
    }
  }

  // ----- the same, read off the expression's text -----

  /** A field that parses allows something, and nothing outside its range. */
  lemma FieldAllowsSomething(field: string, minimum: int, maximum: int) returns (v: int)
    requires WellFormedField(field, minimum, maximum)
    ensures Allows(field, minimum, maximum, v)
    ensures forall x :: Allows(field, minimum, maximum, x) ==> minimum <= x <= maximum
  {
    var parts, spans := SplitOn(field, ','), Spans(field, minimum, maximum);
    forall i | 0 <= i < |spans| ensures minimum <= spans[i].value.start <= spans[i].value.end <= maximum && InSpan(spans[i].value.start, spans[i].value) {
      SpanFacts(parts[i], minimum, maximum);
    }
    v := spans[0].value.start;
  }

  lemma DescribedIsParsed(fields: seq<string>, s: Schedule)
    requires WellFormedExpression(fields) && Describes(fields, s)
    ensures Parsed(s)
  {
    var a := FieldAllowsSomething(fields[0], 0, 59);
    var b := FieldAllowsSomething(fields[1], 0, 23);
    var c := FieldAllowsSomething(fields[2], 1, 31);
    var d := FieldAllowsSomething(fields[3], 1, 12);
    var e := FieldAllowsSomething(fields[4], 0, 7);
    assert a in s.minutes && b in s.hours && c in s.days && d in s.months && e in s.weekdays;
    forall v | 1 <= v <= 31 && s.anyDay ensures v in s.days { StarAllowsAll(1, 31, v); }
    forall v | 0 <= v <= 6 && s.anyWeekday ensures v in s.weekdays { StarAllowsAll(0, 7, v); }
  }

  /**
   A well-formed expression has an occurrence within the search from every moment exactly when its weekday
   field is not a lone `*`, or it allows a day and a month of which every year has that day.
   */
  lemma ExpressionAlwaysOccursIff(fields: seq<string>, s: Schedule)
    requires WellFormedExpression(fields) && Describes(fields, s)
    ensures (forall after :: Valid(after) ==> Findable(s, after)) <==>
            fields[4] != "*" ||
            exists month, day :: Allows(fields[3], 1, 12, month) && Allows(fields[2], 1, 31, day) && day <= ShortestLength(month)
  {
    DescribedIsParsed(fields, s);
    SearchAlwaysSucceedsIff(s);
    assert HasYearlyDay(s) <==>
           exists month, day :: Allows(fields[3], 1, 12, month) && Allows(fields[2], 1, 31, day) && day <= ShortestLength(month);
  }

  // ----- success from one moment -----

  /** The date of `m` is chosen, whatever its time. */
  predicate DayMatches(s: Schedule, m: Moment) {
    m.month in s.months && CalendarMatch(s, m)
  }

  function TimeOfDay(m: Moment): int {
    m.hour * 60 + m.minute
  }

  /** Some chosen time of day lies in the span from `low` to `high`, both included. */
  ghost predicate ChosenTime(s: Schedule, low: int, high: int) {
    exists hour, minute :: hour in s.hours && minute in s.minutes && low <= hour * 60 + minute <= high
  }

  /** A chosen date that the search reaches: between the first day and the last any date, on those two days the times that are searched. */
  ghost predicate ReachesDay(s: Schedule, after: Moment, day: Moment) {
    var distance := Ordinal(day) - Ordinal(after);
    && Valid(day) && DayMatches(s, day)
    && (|| 0 < distance < 732
        || (distance == 0 && ChosenTime(s, TimeOfDay(after) + 1, 1439))
        || (distance == 732 && ChosenTime(s, 0, TimeOfDay(after))))
  }

  lemma MatchReachesDay(s: Schedule, after: Moment, m: Moment)
    requires Valid(after) && InWindow(after, m) && Matches(s, m)
    ensures ReachesDay(s, after, m)
  {
    assert Minutes(m) == Ordinal(m) * 1440 + TimeOfDay(m) && Minutes(after) == Ordinal(after) * 1440 + TimeOfDay(after);
    assert 0 <= TimeOfDay(m) <= 1439 && 0 <= TimeOfDay(after) <= 1439;
    var low := if Ordinal(m) == Ordinal(after) then TimeOfDay(after) + 1 else 0;
    var high := if Ordinal(m) == Ordinal(after) + 732 then TimeOfDay(after) else 1439;
    assert m.hour in s.hours && m.minute in s.minutes && low <= m.hour * 60 + m.minute <= high;
  }

  lemma AtTime(s: Schedule, after: Moment, day: Moment, hour: int, minute: int)
    requires Valid(after) && Valid(day) && DayMatches(s, day) && Parsed(s) && hour in s.hours && minute in s.minutes
    requires var distance := (Ordinal(day) - Ordinal(after)) * 1440 + hour * 60 + minute - TimeOfDay(after);
             0 < distance <= SEARCH_MINUTES
    ensures Findable(s, after)
  {
    var m := day.(hour := hour, minute := minute);
    assert Ordinal(m) == Ordinal(day) && CronWeekday(m) == CronWeekday(day);
    assert InWindow(after, m) && Matches(s, m);
  }

  /**
   The search from a moment succeeds exactly if a chosen date lies among the 731 days after it, or is the day itself with a
   chosen time still to come, or the 732nd day with a chosen time up to the time of the moment.
   */
  lemma FindableIff(s: Schedule, after: Moment)
    requires Parsed(s) && Valid(after)
    ensures Findable(s, after) <==> exists day :: ReachesDay(s, after, day)
  {
    if Findable(s, after) {
      var m :| InWindow(after, m) && Matches(s, m);
      MatchReachesDay(s, after, m);
    }
    if day :| ReachesDay(s, after, day) {
      var distance := Ordinal(day) - Ordinal(after);
      var low := if distance == 0 then TimeOfDay(after) + 1 else 0;
      var high := if distance == 732 then TimeOfDay(after) else 1439;
      assert ChosenTime(s, low, high) by {
        var hour :| hour in s.hours;
        var minute :| minute in s.minutes;
        assert 0 <= hour * 60 + minute <= 1439;
      }
      var hour, minute :| hour in s.hours && minute in s.minutes && low <= hour * 60 + minute <= high;
      AtTime(s, after, day, hour, minute);
    }
  }

  /** With a lone `*` for the weekdays, the dates are chosen by month and day alone. */
  lemma AnyWeekdayMatchesByDay(s: Schedule, m: Moment)
    requires Parsed(s) && s.anyWeekday
    ensures DayMatches(s, m) <==> m.month in s.months && m.day in s.days
  {
    assert 0 <= CronWeekday(m) <= 6;
  }

  /** A day of a chosen month and a chosen day of the month that the search reaches. */
  ghost predicate ReachesDate(s: Schedule, after: Moment, day: Moment) {
    var distance := Ordinal(day) - Ordinal(after);
    && Valid(day) && day.month in s.months && day.day in s.days
    && (|| 0 < distance < 732
        || (distance == 0 && ChosenTime(s, TimeOfDay(after) + 1, 1439))
        || (distance == 732 && ChosenTime(s, 0, TimeOfDay(after))))
  }

  /** With a lone `*` for the weekdays the search fails exactly if it reaches no date of a chosen month and day of the month. */
  lemma AnyWeekdayFindableIff(s: Schedule, after: Moment)
    requires Parsed(s) && s.anyWeekday && Valid(after)
    ensures !Findable(s, after) <==> forall day :: !ReachesDate(s, after, day)
  {
    FindableIff(s, after);
    forall day ensures ReachesDate(s, after, day) <==> ReachesDay(s, after, day) {
      AnyWeekdayMatchesByDay(s, day);
    }
  }

  /** A field that is one number allows that number only. */
  lemma NumberField(n: nat, minimum: int, maximum: int)
    requires minimum <= n <= maximum
    ensures WellFormedField(Decimal(n), minimum, maximum)
    ensures forall v :: Allows(Decimal(n), minimum, maximum, v) <==> v == n
  {
    DecimalParses(n);
    NumberParses(n, minimum, maximum);
    SplitWhole(Decimal(n), ',');
    var spans := Spans(Decimal(n), minimum, maximum);
    assert spans == [Some(Span(n, n, 1))];
    assert spans[0] == Some(Span(n, n, 1));
  }

  lemma StarField(minimum: int, maximum: int)
    requires minimum <= maximum
    ensures WellFormedField("*", minimum, maximum)
  {
    assert "*"[1..] == "" && SplitOn("", ',') == [""];
    assert ['*'] + "" == "*";
    assert SplitOn("*", ',') == ["*"];
    assert IndexOf("*", '/') == 1;
    assert "*"[..1] == "*";
  }

  /** `0 0 29 2 *` is well formed, and a search for it from New Year 2025 fails. */
  lemma LeapDayIsMissed(s: Schedule)
    requires Describes(["0", "0", "29", "2", "*"], s)
    ensures WellFormedExpression(["0", "0", "29", "2", "*"])
    ensures !Findable(s, Moment(2025, 1, 1, 0, 0))
  {
    var fields := ["0", "0", "29", "2", "*"];
    assert Decimal(0) == "0" && Decimal(2) == "2" && Decimal(29) == "29";
    NumberField(0, 0, 59);
    NumberField(0, 0, 23);
    NumberField(29, 1, 31);
    NumberField(2, 1, 12);
    StarField(0, 7);
    DescribedIsParsed(fields, s);
    forall m | InWindow(Moment(2025, 1, 1, 0, 0), m) ensures !Matches(s, m) {
      NoLeapDayAhead(s, m);
    }
  }

  lemma AugustOrdinal(day: int)
    ensures Ordinal(Moment(2026, 8, day, 0, 0)) == 739828 + day
  {
    assert DaysBeforeMonth(2026, 4) == 90;
    assert DaysBeforeMonth(2026, 7) == 181;
    assert DaysBeforeYear(2026) == 739616;
  }

  lemma AugustWeekday(day: int)
    requires 9 <= day <= 15
    ensures CronWeekday(Moment(2026, 8, day, 0, 0)) == day - 9
  {
    AugustOrdinal(day);
    CronWeekdayIsOrdinal(Moment(2026, 8, day, 0, 0));
  }

  lemma NumberFieldsOfExample()
    ensures forall v :: Allows("0", 0, 59, v) <==> v == 0
    ensures forall v :: Allows("0", 0, 23, v) <==> v == 0
    ensures forall v :: Allows("13", 1, 31, v) <==> v == 13
    ensures forall v :: Allows("5", 0, 7, v) <==> v == 5
    ensures Allows("*", 1, 12, 8)
  {
    assert Decimal(0) == "0" && Decimal(5) == "5" && Decimal(13) == "13";
    NumberField(0, 0, 59);
    NumberField(0, 0, 23);
    NumberField(13, 1, 31);
    NumberField(5, 0, 7);
    StarAllowsAll(1, 12, 8);
  }

  lemma FiresOnDay(fields: seq<string>, m: Moment, day: int, weekday: int)
    requires |fields| == 5 && fields[2] != "*" && fields[4] != "*" && weekday > 0
    requires Allows(fields[0], 0, 59, m.minute) && Allows(fields[1], 0, 23, m.hour) && Allows(fields[3], 1, 12, m.month)
    requires Allows(fields[2], 1, 31, m.day) <==> m.day == day
    requires forall v :: Allows(fields[4], 0, 7, v) <==> v == weekday
    requires weekday < 7
    ensures Fires(fields, m) <==> m.day == day || CronWeekday(m) == weekday
  {
  }

  /** `0 0 13 * 5` fires on Thursday, 13 August 2026, and on Friday, 14 August 2026, and on no other day of that week. */
  lemma ThirteenthOrFriday(fields: seq<string>, day: int)
    requires |fields| == 5 && fields[0] == fields[1] == "0" && fields[2] == "13" && fields[3] == "*" && fields[4] == "5"
    requires 9 <= day <= 15
    ensures Fires(fields, Moment(2026, 8, day, 0, 0)) <==> day == 13 || day == 14
  {
    NumberFieldsOfExample();
    AugustWeekday(day);
    assert fields[2][0] == '1' && fields[4][0] == '5';
    FiresOnDay(fields, Moment(2026, 8, day, 0, 0), 13, 5);
  }
}
