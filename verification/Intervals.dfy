/** When a fixed interval and a cron step mean the same: evenly spaced firings need a step that divides the hour or the
    day. */
module Intervals {
  import opened Contracts
  import opened Text
  import opened CronSchedule
  import opened Calendar
  import opened LaunchdSchedule

  /** The next firing after this moment is exactly one period later. */
  ghost predicate NextAfter(fires: int -> bool, t: int, period: nat) {
    fires(t + period) && forall u :: t < u < t + period ==> !fires(u)
  }

  /** It fires at some moment, and from each firing to the next it is exactly one period. */
  ghost predicate EvenlySpaced(fires: int -> bool, period: nat) {
    && (exists t :: fires(t))
    && (forall t {:trigger NextAfter(fires, t, period)} :: fires(t) ==> NextAfter(fires, t, period))
  }

  /** The clock minute of a running count of minutes, or the clock hour of a running count of hours, is a multiple of n.
      */
  predicate OnMultiple(cycle: nat, n: nat, t: int)
    requires cycle > 0 && n > 0
  {
    (t % cycle) % n == 0
  }

  lemma {:induction false} ModOfMod(t: int, cycle: nat, n: nat)
    requires n > 0 && cycle > 0 && cycle % n == 0
    ensures (t % cycle) % n == t % n
  {
    var q, r := t / cycle, t % cycle;
    var m := cycle / n;
    assert cycle == n * m;
    assert t == cycle * q + r;
    assert r == n * (r / n) + r % n;
    assert cycle * q == n * (m * q);
    assert t == n * (m * q + r / n) + r % n;
    UniqueRemainder(t, n, m * q + r / n, r % n);
  }

  lemma {:induction false} ShiftMod(t: int, n: nat, k: int)
    requires n > 0
    ensures (t + n * k) % n == t % n
  {
    assert t == n * (t / n) + t % n;
    assert t + n * k == n * (t / n + k) + t % n;
    UniqueRemainder(t + n * k, n, t / n + k, t % n);
  }

  lemma {:induction false} SmallMod(x: int, n: nat)
    requires 0 <= x < n
    ensures x % n == x
  {
  }

  ghost predicate Multiples(fires: int -> bool, cycle: nat, n: nat)
    requires cycle > 0 && n > 0
  {
    forall t {:trigger fires(t)} :: fires(t) <==> OnMultiple(cycle, n, t)
  }

  lemma {:induction false} DividingNext(cycle: nat, n: nat, t: int, fires: int -> bool)
    requires cycle > 0 && n > 0 && cycle % n == 0
    requires Multiples(fires, cycle, n) && fires(t)
    ensures NextAfter(fires, t, n)
  {
    ModOfMod(t, cycle, n);
    ModOfMod(t + n, cycle, n);
    ShiftMod(t, n, 1);
    forall u | t < u < t + n ensures !fires(u) {
      ModOfMod(u, cycle, n);
      assert t == n * (t / n);
      UniqueRemainder(u, n, t / n, u - t);
    }
  }

  /** The last multiple inside the cycle, one period before a moment that is no multiple. */
  lemma {:induction false} UnevenStep(cycle: nat, n: nat)
    requires 0 < n <= cycle && cycle % n != 0
    ensures exists t :: OnMultiple(cycle, n, t) && !OnMultiple(cycle, n, t + n)
  {
    var q, r := cycle / n, cycle % n;
    var t := n * q;
    assert cycle == t + r;
    SmallMod(t, cycle);
    ShiftMod(0, n, q);
    assert OnMultiple(cycle, n, t);
    assert t + n == cycle + (n - r);
    UniqueRemainder(t + n, cycle, 1, n - r);
    SmallMod(n - r, n);
    assert !OnMultiple(cycle, n, t + n);
  }

  lemma {:induction false} ZeroFires(fires: int -> bool, cycle: nat, n: nat)
    requires cycle > 0 && n > 0 && Multiples(fires, cycle, n)
    ensures fires(0) && fires(cycle)
  {
    SmallMod(0, cycle);
    SmallMod(0, n);
    UniqueRemainder(cycle, cycle, 1, 0);
  }

  lemma {:induction false} NotEven(fires: int -> bool, period: nat, t: int)
    requires fires(t)
    requires !fires(t + period) || exists u :: t < u < t + period && fires(u)
    ensures !EvenlySpaced(fires, period)
  {
    assert !NextAfter(fires, t, period);
  }

  lemma {:induction false} EvenIfDividing(fires: int -> bool, cycle: nat, n: nat)
    requires cycle > 0 && n > 0 && Multiples(fires, cycle, n) && cycle % n == 0
    ensures EvenlySpaced(fires, n)
  {
    ZeroFires(fires, cycle, n);
    forall t {:trigger NextAfter(fires, t, n)} | fires(t) ensures NextAfter(fires, t, n) {
      DividingNext(cycle, n, t, fires);
    }
  }

  lemma {:induction false} UnevenOtherwise(fires: int -> bool, cycle: nat, n: nat)
    requires cycle > 0 && n > 0 && Multiples(fires, cycle, n) && cycle % n != 0
    ensures !EvenlySpaced(fires, n)
  {
    if n <= cycle {
      UnevenStep(cycle, n);
      var t :| OnMultiple(cycle, n, t) && !OnMultiple(cycle, n, t + n);
      assert fires(t) && !fires(t + n);
      NotEven(fires, n, t);
    } else {
      ZeroFires(fires, cycle, n);
      NotEven(fires, n, 0);
    }
  }

  /** Counting restarts with every cycle, so the firings are evenly spaced exactly when the step divides the cycle. */
  lemma {:induction false} EvenExactly(fires: int -> bool, cycle: nat, n: nat)
    requires cycle > 0 && n > 0 && Multiples(fires, cycle, n)
    ensures EvenlySpaced(fires, n) <==> cycle % n == 0
  {
    if cycle % n == 0 {
      EvenIfDividing(fires, cycle, n);
    } else {
      UnevenOtherwise(fires, cycle, n);
    }
  }

  // ---- the lines that cron.py prints for `every`

  /** A clock: what calendar moment a count of minutes is. Only minutes and hours are pinned down. */
  ghost predicate IsClock(clock: int -> Time) {
    forall t :: clock(t).minute == t % 60 && clock(t).hour == (t / 60) % 24
  }

  lemma {:induction false} NoSeparator(s: string, separator: char)
    requires separator !in s
    ensures SplitOn(s, separator) == [s]
  {
    if s != "" {
      NoSeparator(s[1..], separator);
      assert s == [s[0]] + s[1..];
    }
  }

  /** A field that is one element, as it is parsed. */
  lemma {:induction false} SingleElement(field: string, key: Key, e: Element)
    requires ',' !in field && ParseElement(field, key) == Ok(e)
    ensures ParsedElements(SplitOn(field, ','), key) == Ok([e])
  {
    NoSeparator(field, ',');
    var parts := [field];
    assert parts[..0] == [];
    assert ParsedElements([], key) == Ok([]);
    assert [] + [e] == [e];
  }

  lemma {:induction false} PartitionStar(digits: string)
    ensures Partition("*/" + digits, '/') == ("*", digits)
  {
    var field := "*/" + digits;
    var tail := field[1..];
    assert tail[0] == '/' && tail[1..] == digits;
    assert Partition(tail, '/') == ("", digits);
    assert field[0] == '*' && ['*'] + "" == "*";
  }

  /** A step field over the whole range of minutes or hours, as it is parsed. */
  lemma {:induction false} StepFieldParsed(digits: string, key: Key)
    requires IsDigits(digits) && NatOf(digits) > 0
    ensures ParsedElements(SplitOn("*/" + digits, ','), key)
      == Ok([Element(Bounds(key).0, Bounds(key).1, NatOf(digits))])
  {
    var field := "*/" + digits;
    assert field[1] == '/';
    assert forall i :: 0 <= i < |digits| ==> field[i + 2] == digits[i];
    assert ',' !in field;
    PartitionStar(digits);
    SingleElement(field, key, Element(Bounds(key).0, Bounds(key).1, NatOf(digits)));
  }

  /** It matches the multiples of its step. */
  lemma {:induction false} StepFieldMeans(digits: string, key: Key, t: Time)
    requires IsDigits(digits) && NatOf(digits) > 0 && key in {Minute, Hour}
    requires 0 <= Component(t, key) <= Bounds(key).1
    ensures FieldMatches("*/" + digits, key, t) <==> Component(t, key) % NatOf(digits) == 0
  {
    var field := "*/" + digits;
    var e := Element(0, Bounds(key).1, NatOf(digits));
    StepFieldParsed(digits, key);
    forall v ensures FieldDenotes(field, key, v) <==> ElementDenotes(e, v) {
      assert [e][0] == e;
    }
    RangeMeans(e, Component(t, key));
    assert FieldMatches(field, key, t) <==> FieldDenotes(field, key, Component(t, key));
  }

  /** The field "0" matches zero only. */
  lemma {:induction false} ZeroFieldMeans(t: Time)
    ensures FieldMatches("0", Minute, t) <==> t.minute == 0
  {
    var e := Element(0, 0, 1);
    assert "0"[..0] == "" && NatOf("0") == 0;
    SingleElement("0", Minute, e);
    forall v ensures FieldDenotes("0", Minute, v) <==> v == 0 {
      assert [e][0] == e;
      RangeMeans(e, v);
    }
    assert "0"[0] != "*"[0];
    assert FieldMatches("0", Minute, t) <==> FieldDenotes("0", Minute, t.minute);
  }

  /** When a line fires, as a function of a running count. */
  ghost function Firings(fields: seq<string>, clock: int -> Time): (fires: int -> bool)
    requires |fields| == 5
    ensures forall t {:trigger fires(t)} :: fires(t) <==> AllFieldsMatch(fields, clock(t))
  {
    t => AllFieldsMatch(fields, clock(t))
  }

  /** With the last three fields free, only the minute and the hour count. */
  lemma {:induction false} MinuteAndHour(fields: seq<string>, t: Time)
    requires |fields| == 5 && fields[2] == fields[3] == fields[4] == "*"
    ensures AllFieldsMatch(fields, t) <==> FieldMatches(fields[0], Minute, t) && FieldMatches(fields[1], Hour, t)
  {
    assert KEYS[0] == Minute && KEYS[1] == Hour;
  }

  /** The printed fields of a portable schedule in minutes or hours. */
  function PrintedFields(value: string): seq<string>
    requires EveryValue(value)
  {
    var n := "*/" + NatText(Amount(value));
    if Unit(value) == 'm' then [n, "*", "*", "*", "*"] else ["0", n, "*", "*", "*"]
  }

  lemma {:induction false} PrintedLine(schedule: Schedule)
    requires ValidSchedule(schedule) && schedule.kind == EverySchedule && Unit(schedule.value) in {'m', 'h'}
    ensures RenderCronSchedule(schedule).Ok?
    ensures Fields(RenderCronSchedule(schedule).value) == PrintedFields(schedule.value)
  {
    StepField(Amount(schedule.value));
    JoinedExpression(PrintedFields(schedule.value));
  }

  lemma {:induction false} MinuteStepMultiples(fields: seq<string>, digits: string, clock: int -> Time)
    requires |fields| == 5 && fields[0] == "*/" + digits && fields[1] == fields[2] == fields[3] == fields[4] == "*"
    requires IsDigits(digits) && NatOf(digits) > 0 && IsClock(clock)
    ensures Multiples(Firings(fields, clock), 60, NatOf(digits))
  {
    forall t ensures Firings(fields, clock)(t) <==> OnMultiple(60, NatOf(digits), t) {
      MinuteAndHour(fields, clock(t));
      StepFieldMeans(digits, Minute, clock(t));
    }
  }

  /** `every: Nm`: the printed cron line fires at the spacing that launchd is given exactly when N divides 60. */
  lemma {:induction false} EveryMinutesExactly(schedule: Schedule, clock: int -> Time)
    requires ValidSchedule(schedule) && schedule.kind == EverySchedule && Unit(schedule.value) == 'm'
    requires IsClock(clock)
    ensures RenderCronSchedule(schedule).Ok? && |Fields(RenderCronSchedule(schedule).value)| == 5
    ensures ParseEverySeconds(schedule.value) == 60 * Amount(schedule.value)
    ensures EvenlySpaced(Firings(Fields(RenderCronSchedule(schedule).value), clock),
                         ParseEverySeconds(schedule.value) / 60)
      <==> 60 % Amount(schedule.value) == 0
  {
    PrintedLine(schedule);
    MinutesInSeconds(schedule.value);
    MinutesCore(Fields(RenderCronSchedule(schedule).value), Amount(schedule.value), clock,
                ParseEverySeconds(schedule.value) / 60);
  }

  lemma {:induction false} MinutesInSeconds(value: string)
    requires EveryValue(value) && Unit(value) == 'm'
    ensures ParseEverySeconds(value) == 60 * Amount(value) && ParseEverySeconds(value) / 60 == Amount(value)
  {
  }

  lemma {:induction false} MinutesCore(fields: seq<string>, n: nat, clock: int -> Time, spacing: int)
    requires spacing == n > 0 && fields == ["*/" + NatText(n), "*", "*", "*", "*"] && IsClock(clock)
    ensures EvenlySpaced(Firings(fields, clock), spacing) <==> 60 % n == 0
  {
    NatRoundTrip(n);
    MinuteStepMultiples(fields, NatText(n), clock);
    EvenExactly(Firings(fields, clock), 60, n);
  }

  /** A step on the minutes and nothing else, under launchd: the interval it is compiled to is what cron does exactly
      when the step divides 60. */
  lemma {:induction false} MinuteStepExactly(fields: seq<string>, clock: int -> Time)
    requires |fields| == 5 && EveryNMinutes(fields) && IsClock(clock)
    ensures MinuteStep(fields[0]).value > 0
    ensures EvenlySpaced(Firings(fields, clock), MinuteStep(fields[0]).value) <==> 60 % MinuteStep(fields[0]).value == 0
  {
    var digits := fields[0][2..];
    LeadingDigitPositive(digits);
    assert fields[0] == "*/" + digits;
    assert fields[1] == fields[1..][0] && fields[2] == fields[1..][1];
    assert fields[3] == fields[1..][2] && fields[4] == fields[1..][3];
    MinuteStepMultiples(fields, digits, clock);
    EvenExactly(Firings(fields, clock), 60, NatOf(digits));
  }

  // ---- hours

  /** A pattern of hours, fired at minute zero. */
  ghost predicate AtMinuteZero(f: int -> bool, g: int -> bool) {
    forall t {:trigger f(t)} :: f(t) <==> t % 60 == 0 && g(t / 60)
  }

  lemma {:induction false} OnTheHour(f: int -> bool, g: int -> bool, h: int)
    requires AtMinuteZero(f, g)
    ensures f(60 * h) <==> g(h)
  {
    UniqueRemainder(60 * h, 60, h, 0);
  }

  /** At minute zero of an hour, the next firing by minutes is the next firing by hours. */
  lemma {:induction false} NextHour(f: int -> bool, g: int -> bool, n: nat, h: int)
    requires AtMinuteZero(f, g)
    ensures NextAfter(f, 60 * h, 60 * n) <==> NextAfter(g, h, n)
  {
    assert 60 * h + 60 * n == 60 * (h + n);
    OnTheHour(f, g, h + n);
    if NextAfter(g, h, n) {
      forall u | 60 * h < u < 60 * h + 60 * n ensures !f(u) {
        if u % 60 == 0 {
          assert u == 60 * (u / 60);
          assert h < u / 60 < h + n;
        }
      }
    }
    if NextAfter(f, 60 * h, 60 * n) {
      forall u | h < u < h + n ensures !g(u) {
        OnTheHour(f, g, u);
        assert 60 * h < 60 * u < 60 * h + 60 * n;
      }
    }
  }

  /** Stretching a pattern of hours to minutes keeps even spacing, and only that. */
  lemma {:induction false} HoursToMinutes(f: int -> bool, g: int -> bool, n: nat)
    requires AtMinuteZero(f, g)
    ensures EvenlySpaced(f, 60 * n) <==> EvenlySpaced(g, n)
  {
    if EvenlySpaced(g, n) {
      EvenMinutes(f, g, n);
    }
    if EvenlySpaced(f, 60 * n) {
      EvenHours(f, g, n);
    }
  }

  lemma {:induction false} NextMinuteAt(f: int -> bool, g: int -> bool, n: nat, t: int)
    requires AtMinuteZero(f, g) && f(t)
    ensures g(t / 60)
    ensures NextAfter(g, t / 60, n) ==> NextAfter(f, t, 60 * n)
  {
    assert t == 60 * (t / 60);
    NextHour(f, g, n, t / 60);
  }

  lemma {:induction false} EvenMinutes(f: int -> bool, g: int -> bool, n: nat)
    requires AtMinuteZero(f, g) && EvenlySpaced(g, n)
    ensures EvenlySpaced(f, 60 * n)
  {
    var h :| g(h);
    OnTheHour(f, g, h);
    forall t {:trigger NextAfter(f, t, 60 * n)} | f(t) ensures NextAfter(f, t, 60 * n) {
      NextMinuteAt(f, g, n, t);
      assert NextAfter(g, t / 60, n);
    }
  }

  lemma {:induction false} EvenHours(f: int -> bool, g: int -> bool, n: nat)
    requires AtMinuteZero(f, g) && EvenlySpaced(f, 60 * n)
    ensures EvenlySpaced(g, n)
  {
    var t :| f(t);
    assert g(t / 60);
    forall h {:trigger NextAfter(g, h, n)} | g(h) ensures NextAfter(g, h, n) {
      OnTheHour(f, g, h);
      assert NextAfter(f, 60 * h, 60 * n);
      NextHour(f, g, n, h);
    }
  }

  /** The hours of a step field, counted from some midnight. */
  ghost function HoursOn(n: nat): (hours: int -> bool)
    requires n > 0
    ensures Multiples(hours, 24, n)
  {
    h => OnMultiple(24, n, h)
  }

  lemma {:induction false} HourStepMultiples(fields: seq<string>, digits: string, clock: int -> Time)
    requires |fields| == 5 && fields[0] == "0" && fields[1] == "*/" + digits
    requires fields[2] == fields[3] == fields[4] == "*"
    requires IsDigits(digits) && NatOf(digits) > 0 && IsClock(clock)
    ensures AtMinuteZero(Firings(fields, clock), HoursOn(NatOf(digits)))
  {
    forall t ensures Firings(fields, clock)(t) <==> t % 60 == 0 && HoursOn(NatOf(digits))(t / 60) {
      MinuteAndHour(fields, clock(t));
      ZeroFieldMeans(clock(t));
      StepFieldMeans(digits, Hour, clock(t));
    }
  }

  /** `every: Nh`: the same, exactly when N divides 24. */
  lemma {:induction false} EveryHoursExactly(schedule: Schedule, clock: int -> Time)
    requires ValidSchedule(schedule) && schedule.kind == EverySchedule && Unit(schedule.value) == 'h'
    requires IsClock(clock)
    ensures RenderCronSchedule(schedule).Ok? && |Fields(RenderCronSchedule(schedule).value)| == 5
    ensures ParseEverySeconds(schedule.value) == 3600 * Amount(schedule.value)
    ensures EvenlySpaced(Firings(Fields(RenderCronSchedule(schedule).value), clock),
                         ParseEverySeconds(schedule.value) / 60)
      <==> 24 % Amount(schedule.value) == 0
  {
    PrintedLine(schedule);
    HoursCore(PrintedFields(schedule.value), Amount(schedule.value), clock);
  }

  lemma {:induction false} HoursCore(fields: seq<string>, n: nat, clock: int -> Time)
    requires n > 0 && fields == ["0", "*/" + NatText(n), "*", "*", "*"] && IsClock(clock)
    ensures EvenlySpaced(Firings(fields, clock), 60 * n) <==> 24 % n == 0
  {
    NatRoundTrip(n);
    HourStepMultiples(fields, NatText(n), clock);
    HoursToMinutes(Firings(fields, clock), HoursOn(n), n);
    EvenExactly(HoursOn(n), 24, n);
  }
}
