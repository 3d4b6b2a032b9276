/** Schedule strings: the portable `every` form, the cron line it becomes, and what cron cannot express. */
module CronSchedule {
  import opened Contracts
  import opened Text

  // ---- decimal numbers

  predicate IsDigit(c: char) { '0' <= c <= '9' }

  function DigitValue(c: char): nat
    requires IsDigit(c)
  {
    c as int - '0' as int
  }

  function DigitChar(d: nat): (c: char)
    requires d < 10
    ensures IsDigit(c) && DigitValue(c) == d
  {
    ('0' as int + d) as char
  }

  predicate IsDigits(s: string) {
    s != "" && forall i :: 0 <= i < |s| ==> IsDigit(s[i])
  }

  /** `int(s)` for a string of ASCII digits. */
  function NatOf(s: string): nat
    requires forall i :: 0 <= i < |s| ==> IsDigit(s[i])
  {
    if s == "" then 0 else 10 * NatOf(s[..|s| - 1]) + DigitValue(s[|s| - 1])
  }

  lemma {:induction false} LeadingDigitPositive(s: string)
    requires IsDigits(s) && s[0] != '0'
    ensures NatOf(s) > 0
  {
    if |s| > 1 {
      LeadingDigitPositive(s[..|s| - 1]);
    } else {
      assert s[..0] == "";
    }
  }

  lemma {:induction false} OnlyOne(s: string)
    requires IsDigits(s) && s[0] != '0'
    ensures NatOf(s) == 1 <==> s == "1"
  {
    if |s| > 1 {
      LeadingDigitPositive(s[..|s| - 1]);
    } else {
      assert s[..0] == "" && s == [s[0]];
    }
  }

  /** `str(n)`. */
  function NatText(n: nat): (s: string)
    ensures IsDigits(s)
  {
    if n < 10 then [DigitChar(n)] else NatText(n / 10) + [DigitChar(n % 10)]
  }

  lemma {:induction false} NatRoundTrip(n: nat)
    ensures NatOf(NatText(n)) == n
  {
    if n < 10 {
      assert NatText(n)[..0] == "";
    } else {
      NatRoundTrip(n / 10);
      assert NatText(n)[..|NatText(n)| - 1] == NatText(n / 10);
    }
  }

  // ---- `every` values

  /** The schema pattern for `every`: digits without a leading zero, then one unit letter. */
  predicate EveryValue(value: string) {
    && |value| >= 2
    && IsDigits(value[..|value| - 1]) && value[0] != '0'
    && value[|value| - 1] in {'s', 'm', 'h', 'd', 'w'}
  }

  function Amount(value: string): (n: nat)
    requires EveryValue(value)
    ensures n > 0
  {
    LeadingDigitPositive(value[..|value| - 1]);
    NatOf(value[..|value| - 1])
  }

  function Unit(value: string): char
    requires EveryValue(value)
  {
    value[|value| - 1]
  }

  /** The characters a validated cron field may hold. */
  predicate IsCronChar(c: char) {
    '0' <= c <= '9' || 'A' <= c <= 'Z' || 'a' <= c <= 'z' || c == '*' || c == '/' || c == ',' || c == '-'
  }

  predicate CronField(field: string) {
    field != "" && forall i :: 0 <= i < |field| ==> IsCronChar(field[i])
  }

  /** What manifest validation demands of a cron expression: five fields of cron characters. */
  predicate CronExpression(value: string) {
    |Fields(value)| == 5 && forall i :: 0 <= i < 5 ==> CronField(Fields(value)[i])
  }

  /** A schedule that passed validation. */
  predicate ValidSchedule(schedule: Schedule) {
    match schedule.kind
    case CronSchedule => CronExpression(schedule.value)
    case EverySchedule => EveryValue(schedule.value)
  }

  /** What validation guarantees about the schedules of a manifest. */
  predicate Schedulable(jobs: seq<Job>) {
    forall i :: 0 <= i < |jobs| ==> ValidSchedule(jobs[i].schedule)
  }

  datatype RenderError = CannotTranslate(value: string) | NoJobs

  /** `render_cron_schedule`. */
  function RenderCronSchedule(schedule: Schedule): Result<string, RenderError>
    requires ValidSchedule(schedule)
  {
    if schedule.kind == ScheduleKind.CronSchedule then Ok(schedule.value)
    else
      var n := NatText(Amount(schedule.value));
      var unit := Unit(schedule.value);
      if unit == 'm' then Ok(JoinBlanks(["*/" + n, "*", "*", "*", "*"]))
      else if unit == 'h' then Ok(JoinBlanks(["0", "*/" + n, "*", "*", "*"]))
      else if unit == 'd' then Ok(JoinBlanks(["0", "0", "*/" + n, "*", "*"]))
      else if unit == 'w' && Amount(schedule.value) == 1 then Ok(JoinBlanks(["0", "0", "*", "*", "0"]))
      else Err(CannotTranslate(schedule.value))
  }

  /** `cron_incompatible_reason`: whether cron refuses the schedule before anything is rendered. */
  predicate CronIncompatible(schedule: Schedule)
    requires ValidSchedule(schedule)
  {
    schedule.kind == EverySchedule &&
    (Unit(schedule.value) == 's' || (Unit(schedule.value) == 'w' && Amount(schedule.value) > 1))
  }

  /** The policy check refuses exactly the schedules that the renderer would fail on. */
  lemma {:induction false} RenderFailsExactly(schedule: Schedule)
    requires ValidSchedule(schedule)
    ensures RenderCronSchedule(schedule).Err? <==> CronIncompatible(schedule)
  {
  }

  lemma {:induction false} CronCharsAreTokens(field: string)
    requires CronField(field)
    ensures IsToken(field)
  {
  }

  lemma {:induction false} StepField(n: nat)
    ensures CronField("*/" + NatText(n))
  {
    var s := "*/" + NatText(n);
    forall i | 0 <= i < |s| ensures IsCronChar(s[i]) {
      if i >= 2 {
        assert s[i] == NatText(n)[i - 2];
      }
    }
  }

  lemma {:induction false} JoinedExpression(fields: seq<string>)
    requires |fields| == 5 && forall i :: 0 <= i < 5 ==> CronField(fields[i])
    ensures CronExpression(JoinBlanks(fields)) && Fields(JoinBlanks(fields)) == fields
  {
    forall i | 0 <= i < 5 ensures IsToken(fields[i]) { CronCharsAreTokens(fields[i]); }
    FieldsOfJoin(fields);
  }

  /** The four shapes of an `every` schedule. */
  lemma {:induction false} StepExpressions(n: string)
    requires CronField(n)
    ensures CronExpression(JoinBlanks([n, "*", "*", "*", "*"])) && CronExpression(JoinBlanks(["0", n, "*", "*", "*"]))
    ensures CronExpression(JoinBlanks(["0", "0", n, "*", "*"]))
  {
    JoinedExpression([n, "*", "*", "*", "*"]);
    JoinedExpression(["0", n, "*", "*", "*"]);
    JoinedExpression(["0", "0", n, "*", "*"]);
  }

  /** Whatever is rendered is itself a five-field cron expression. */
  lemma {:induction false} RenderedExpression(schedule: Schedule)
    requires ValidSchedule(schedule) && !CronIncompatible(schedule)
    ensures RenderCronSchedule(schedule).Ok? && CronExpression(RenderCronSchedule(schedule).value)
  {
    RenderFailsExactly(schedule);
    if schedule.kind == EverySchedule {
      StepField(Amount(schedule.value));
      StepExpressions("*/" + NatText(Amount(schedule.value)));
      JoinedExpression(["0", "0", "*", "*", "0"]);
    }
  }
}
