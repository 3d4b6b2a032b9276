/** Compiling a schedule for launchd keeps its meaning: when the emitted calendar fires, field by field, and how the
    interval forms compare with what cron does. */
module LaunchdSchedule {
  import opened Contracts
  import opened Text
  import opened CronSchedule
  import opened Calendar

  const KEYS := [Minute, Hour, Day, Month, Weekday]

  // ---- what fields and dictionaries mean

  /** A moment as cron and launchd see it; the weekday counts from Sunday. */
  datatype Time = Time(minute: int, hour: int, day: int, month: int, weekday: int)

  function Component(t: Time, key: Key): int {
    match key
    case Minute => t.minute
    case Hour => t.hour
    case Day => t.day
    case Month => t.month
    case Weekday => t.weekday
  }

  /** Both 0 and 7 stand for Sunday. */
  predicate ValueMatches(key: Key, value: int, t: Time) {
    value == Component(t, key) || (key == Weekday && value == 7 && t.weekday == 0)
  }

  /** Some element of the field's list denotes the value. */
  ghost predicate FieldDenotes(field: string, key: Key, v: int) {
    match ParsedElements(SplitOn(field, ','), key)
    case Err(_) => false
    case Ok(elements) => exists i :: 0 <= i < |elements| && ElementDenotes(elements[i], v)
  }

  ghost predicate FieldMatches(field: string, key: Key, t: Time) {
    field == "*" || exists v :: FieldDenotes(field, key, v) && ValueMatches(key, v, t)
  }

  ghost predicate AllFieldsMatch(fields: seq<string>, t: Time)
    requires |fields| == 5
  {
    forall i :: 0 <= i < 5 ==> FieldMatches(fields[i], KEYS[i], t)
  }

  /** The other reading of cron: two restricted day fields match if either does. */
  ghost predicate EitherFieldsMatch(fields: seq<string>, t: Time)
    requires |fields| == 5
  {
    if fields[2] != "*" && fields[4] != "*" then
      && FieldMatches(fields[0], Minute, t) && FieldMatches(fields[1], Hour, t) && FieldMatches(fields[3], Month, t)
      && (FieldMatches(fields[2], Day, t) || FieldMatches(fields[4], Weekday, t))
    else AllFieldsMatch(fields, t)
  }

  /** If both day fields are restricted, neither denotes nothing at all. */
  ghost predicate DayFieldsInhabited(fields: seq<string>)
    requires |fields| == 5
  {
    fields[2] != "*" && fields[4] != "*" ==>
      (exists v :: FieldDenotes(fields[2], Day, v)) && exists v :: FieldDenotes(fields[4], Weekday, v)
  }

  predicate BothMatch(d: map<Key, int>, t: Time) {
    forall k :: k in d ==> ValueMatches(k, d[k], t)
  }

  predicate EitherMatch(d: map<Key, int>, t: Time) {
    if Day in d && Weekday in d then
      && (forall k :: k in d && k != Day && k != Weekday ==> ValueMatches(k, d[k], t))
      && (ValueMatches(Day, d[Day], t) || ValueMatches(Weekday, d[Weekday], t))
    else BothMatch(d, t)
  }

  ghost predicate FiresBoth(intervals: seq<map<Key, int>>, t: Time) {
    exists d :: d in intervals && BothMatch(d, t)
  }

  ghost predicate FiresEither(intervals: seq<map<Key, int>>, t: Time) {
    exists d :: d in intervals && EitherMatch(d, t)
  }

  // ---- rows and columns

  ghost predicate ListHas(column: Column, p: (Key, int) -> bool) {
    exists v :: v in column.1 && p(column.0, v)
  }

  /** If every list has a value of some kind, some dictionary has only such values. */
  lemma {:induction false} ChooseRow(columns: seq<Column>, p: (Key, int) -> bool)
    requires DistinctKeys(columns)
    requires forall i :: 0 <= i < |columns| ==> ListHas(columns[i], p)
    ensures exists d :: d in Rows(columns) && forall k :: k in d ==> p(k, d[k])
  {
    if columns == [] {
      assert map[] in Rows(columns);
    } else {
      var rest := columns[1..];
      forall i | 0 <= i < |rest| ensures ListHas(rest[i], p) { assert rest[i] == columns[i + 1]; }
      ChooseRow(rest, p);
      var row :| row in Rows(rest) && forall k :: k in row ==> p(k, row[k]);
      assert ListHas(columns[0], p);
      var v :| v in columns[0].1 && p(columns[0].0, v);
      var d := row[columns[0].0 := v];
      SpreadMembers(columns[0].0, columns[0].1, Rows(rest), d);
      assert d in Rows(columns);
    }
  }

  ghost predicate ListMatches(column: Column, t: Time) {
    exists v :: v in column.1 && ValueMatches(column.0, v, t)
  }

  lemma {:induction false} RowsBoth(columns: seq<Column>, t: Time)
    requires DistinctKeys(columns)
    ensures FiresBoth(Rows(columns), t) <==> forall i :: 0 <= i < |columns| ==> ListMatches(columns[i], t)
  {
    if FiresBoth(Rows(columns), t) {
      var d :| d in Rows(columns) && BothMatch(d, t);
      RowsExactly(columns, d);
      forall i | 0 <= i < |columns| ensures ListMatches(columns[i], t) {
        assert columns[i].0 in d;
      }
    }
    if forall i :: 0 <= i < |columns| ==> ListMatches(columns[i], t) {
      var p := (k: Key, v: int) => ValueMatches(k, v, t);
      forall i | 0 <= i < |columns| ensures ListHas(columns[i], p) {
        assert ListMatches(columns[i], t);
        var v :| v in columns[i].1 && ValueMatches(columns[i].0, v, t);
        assert p(columns[i].0, v);
      }
      ChooseRow(columns, p);
    }
  }

  /** With both day columns present: the others match, one of the day columns matches, and the other one is not empty.
      */
  ghost predicate EitherListsMatch(columns: seq<Column>, t: Time) {
    && (forall i :: 0 <= i < |columns| && columns[i].0 != Day && columns[i].0 != Weekday ==> ListMatches(columns[i], t))
    && (forall i :: 0 <= i < |columns| ==> columns[i].1 != [])
    && exists i :: 0 <= i < |columns| && columns[i].0 in {Day, Weekday} && ListMatches(columns[i], t)
  }

  lemma {:induction false} RowsEither(columns: seq<Column>, t: Time, a: nat, b: nat)
    requires DistinctKeys(columns)
    requires a < |columns| && columns[a].0 == Day && b < |columns| && columns[b].0 == Weekday
    ensures FiresEither(Rows(columns), t) <==> EitherListsMatch(columns, t)
  {
    if FiresEither(Rows(columns), t) {
      var d :| d in Rows(columns) && EitherMatch(d, t);
      RowsExactly(columns, d);
      assert Day in d && Weekday in d;
      forall i | 0 <= i < |columns|
        ensures columns[i].0 in d && d[columns[i].0] in columns[i].1
      {
      }
      assert if ValueMatches(Day, d[Day], t) then ListMatches(columns[a], t) else ListMatches(columns[b], t);
    }
    if EitherListsMatch(columns, t) {
      var m :| 0 <= m < |columns| && columns[m].0 in {Day, Weekday} && ListMatches(columns[m], t);
      var free := if columns[m].0 == Day then Weekday else Day;
      FireEither(columns, t, m, free);
    }
  }

  lemma {:induction false} FireEither(columns: seq<Column>, t: Time, m: nat, free: Key)
    requires DistinctKeys(columns) && EitherListsMatch(columns, t)
    requires m < |columns| && ListMatches(columns[m], t)
    requires {columns[m].0, free} == {Day, Weekday} && columns[m].0 != free
    ensures FiresEither(Rows(columns), t)
  {
    var p := (k: Key, v: int) => k == free || ValueMatches(k, v, t);
    forall i | 0 <= i < |columns| ensures ListHas(columns[i], p) {
      FreeOrMatching(columns, t, m, free, i, p);
    }
    ChooseRow(columns, p);
    var d :| d in Rows(columns) && forall k :: k in d ==> p(k, d[k]);
    RowsExactly(columns, d);
    assert columns[m].0 in d;
    assert forall k :: k in d && k != free ==> ValueMatches(k, d[k], t);
  }

  lemma {:induction false} FreeOrMatching(columns: seq<Column>, t: Time, m: nat, free: Key, i: nat,
          p: (Key, int) -> bool)
    requires DistinctKeys(columns) && EitherListsMatch(columns, t)
    requires m < |columns| && ListMatches(columns[m], t) && i < |columns|
    requires {columns[m].0, free} == {Day, Weekday} && columns[m].0 != free
    requires forall k, v :: p(k, v) <==> k == free || ValueMatches(k, v, t)
    ensures ListHas(columns[i], p)
  {
    if columns[i].0 == free {
      var v := columns[i].1[0];
      assert v in columns[i].1 && p(columns[i].0, v);
    } else {
      assert columns[i].0 in {Day, Weekday} ==> i == m;
      var v :| v in columns[i].1 && ValueMatches(columns[i].0, v, t);
      assert p(columns[i].0, v);
    }
  }

  // ---- from the five fields to the columns

  function SpecifiedColumns(answers: seq<Option<seq<int>>>, keys: seq<Key>): seq<Column>
    requires |answers| == |keys|
  {
    if answers == [] then []
    else
      (if answers[0].Some? then [(keys[0], answers[0].value)] else []) + SpecifiedColumns(answers[1..], keys[1..])
  }

  predicate DistinctList(keys: seq<Key>) {
    forall i, j :: 0 <= i < j < |keys| ==> keys[i] != keys[j]
  }

  /** A column comes from some field. */
  ghost predicate FromField(answers: seq<Option<seq<int>>>, keys: seq<Key>, column: Column)
    requires |answers| == |keys|
  {
    exists j :: 0 <= j < |keys| && keys[j] == column.0 && answers[j] == Some(column.1)
  }

  lemma {:induction false} ColumnsFromFields(answers: seq<Option<seq<int>>>, keys: seq<Key>)
    requires |answers| == |keys|
    ensures forall c :: c in SpecifiedColumns(answers, keys) <==> FromField(answers, keys, c)
  {
    if answers != [] {
      ColumnsFromFields(answers[1..], keys[1..]);
      forall c: Column
        ensures FromField(answers, keys, c) <==>
          (keys[0] == c.0 && answers[0] == Some(c.1)) || FromField(answers[1..], keys[1..], c)
      {
        if FromField(answers[1..], keys[1..], c) {
          var j :| 0 <= j < |keys| - 1 && keys[1..][j] == c.0 && answers[1..][j] == Some(c.1);
          assert keys[j + 1] == c.0 && answers[j + 1] == Some(c.1);
        }
        if j :| 1 <= j < |keys| && keys[j] == c.0 && answers[j] == Some(c.1) {
          assert keys[1..][j - 1] == c.0 && answers[1..][j - 1] == Some(c.1);
        }
      }
    }
  }

  lemma {:induction false} ColumnsDistinct(answers: seq<Option<seq<int>>>, keys: seq<Key>)
    requires |answers| == |keys| && DistinctList(keys)
    ensures DistinctKeys(SpecifiedColumns(answers, keys))
  {
    if answers != [] {
      var rest := SpecifiedColumns(answers[1..], keys[1..]);
      ColumnsDistinct(answers[1..], keys[1..]);
      ColumnsFromFields(answers[1..], keys[1..]);
      forall i | 0 <= i < |rest| ensures rest[i].0 != keys[0] {
        assert rest[i] in rest && FromField(answers[1..], keys[1..], rest[i]);
      }
    }
  }

  /** The answer lists what the field denotes, or is absent for `*`. */
  ghost predicate FieldAnswer(field: string, key: Key, answer: Option<seq<int>>) {
    ReadField(field, key) == Ok(answer)
  }

  /** The five answers, each right for its field. */
  ghost predicate Answered(fields: seq<string>, answers: seq<Option<seq<int>>>) {
    |fields| == 5 && |answers| == 5 && forall i :: 0 <= i < 5 ==> FieldAnswer(fields[i], KEYS[i], answers[i])
  }

  lemma {:induction false} AllValuesMean(elements: seq<Element>, v: int)
    requires forall i :: 0 <= i < |elements| ==> elements[i].step != 0
    ensures v in AllValues(elements) <==> exists i :: 0 <= i < |elements| && ElementDenotes(elements[i], v)
  {
    if elements != [] {
      AllValuesMean(elements[..|elements| - 1], v);
      RangeMeans(elements[|elements| - 1], v);
    }
  }

  lemma {:induction false} ParsedSteps(parts: seq<string>, key: Key)
    ensures ParsedElements(parts, key).Ok? ==>
      forall i :: 0 <= i < |ParsedElements(parts, key).value| ==> ParsedElements(parts, key).value[i].step != 0
  {
    if parts != [] {
      ParsedSteps(parts[..|parts| - 1], key);
    }
  }

  /** The values listed for a field are the ones that it denotes. */
  lemma {:induction false} AnswerDenotes(field: string, key: Key, answer: Option<seq<int>>, v: int)
    requires FieldAnswer(field, key, answer) && answer.Some?
    ensures v in answer.value <==> FieldDenotes(field, key, v)
  {
    var elements := ParsedElements(SplitOn(field, ','), key).value;
    SortedListExactly(AllValues(elements));
    ParsedSteps(SplitOn(field, ','), key);
    AllValuesMean(elements, v);
  }

  lemma {:induction false} AnswerMatches(field: string, key: Key, answer: Option<seq<int>>, t: Time)
    requires FieldAnswer(field, key, answer)
    ensures answer.None? <==> field == "*"
    ensures answer.Some? ==> (FieldMatches(field, key, t) <==> ListMatches((key, answer.value), t))
    ensures answer.Some? ==> (answer.value != [] <==> exists v :: FieldDenotes(field, key, v))
  {
    if answer.Some? {
      forall v ensures v in answer.value <==> FieldDenotes(field, key, v) { AnswerDenotes(field, key, answer, v); }
      if answer.value != [] {
        assert answer.value[0] in answer.value;
      }
    }
  }

  /** Meaning preserved, for each reading of cron, together with the exact exception to the second one. */
  lemma {:induction false} CalendarMeans(fields: seq<string>, answers: seq<Option<seq<int>>>, t: Time)
    requires Answered(fields, answers)
    ensures FiresBoth(Rows(SpecifiedColumns(answers, KEYS)), t) <==> AllFieldsMatch(fields, t)
    ensures FiresEither(Rows(SpecifiedColumns(answers, KEYS)), t)
      <==> EitherFieldsMatch(fields, t) && DayFieldsInhabited(fields)
  {
    var c := SpecifiedColumns(answers, KEYS);
    ColumnsDescribed(fields, answers, t);
    BothMeans(fields, answers, c, t);
    if answers[2].Some? && answers[4].Some? {
      EitherMeans(fields, answers, c, t);
    } else {
      OneDayField(answers, c);
      NoDayPair(c);
    }
  }

  lemma {:induction false} OneDayField(answers: seq<Option<seq<int>>>, c: seq<Column>)
    requires |answers| == 5 && c == SpecifiedColumns(answers, KEYS)
    requires answers[2].None? || answers[4].None?
    ensures (forall i :: 0 <= i < |c| ==> c[i].0 != Day) || (forall i :: 0 <= i < |c| ==> c[i].0 != Weekday)
  {
    ColumnsFromFields(answers, KEYS);
    forall i | 0 <= i < |c| ensures FromField(answers, KEYS, c[i]) { assert c[i] in c; }
  }

  lemma {:induction false} ColumnsDescribed(fields: seq<string>, answers: seq<Option<seq<int>>>, t: Time)
    requires Answered(fields, answers)
    ensures Described(fields, answers, SpecifiedColumns(answers, KEYS), t)
  {
    ColumnsDistinct(answers, KEYS);
    ColumnsFromFields(answers, KEYS);
    forall i | 0 <= i < 5 ensures FieldAgrees(fields[i], KEYS[i], answers[i], t) {
      AnswerMatches(fields[i], KEYS[i], answers[i], t);
    }
  }

  lemma {:induction false} NoDayPair(columns: seq<Column>)
    requires DistinctKeys(columns)
    requires || (forall i :: 0 <= i < |columns| ==> columns[i].0 != Day)
             || (forall i :: 0 <= i < |columns| ==> columns[i].0 != Weekday)
    ensures forall t :: FiresEither(Rows(columns), t) <==> FiresBoth(Rows(columns), t)
  {
    forall d | d in Rows(columns) ensures Day !in d || Weekday !in d {
      RowsExactly(columns, d);
    }
  }

  /** What one answer has to do with its field. */
  ghost predicate FieldAgrees(field: string, key: Key, answer: Option<seq<int>>, t: Time) {
    && (answer.None? <==> field == "*")
    && (answer.Some? ==> (FieldMatches(field, key, t) <==> ListMatches((key, answer.value), t)))
    && (answer.Some? ==> (answer.value != [] <==> exists v :: FieldDenotes(field, key, v)))
  }

  /** What the columns have to do with the fields. */
  ghost predicate Described(fields: seq<string>, answers: seq<Option<seq<int>>>, c: seq<Column>, t: Time) {
    && |fields| == 5 && |answers| == 5 && DistinctKeys(c)
    && (forall column :: column in c <==> FromField(answers, KEYS, column))
    && forall j :: 0 <= j < 5 ==> FieldAgrees(fields[j], KEYS[j], answers[j], t)
  }

  /** The column of a restricted field. */
  lemma {:induction false} ColumnOf(fields: seq<string>, answers: seq<Option<seq<int>>>, c: seq<Column>, t: Time,
          j: nat)
    returns (i: nat)
    requires Described(fields, answers, c, t) && j < 5 && answers[j].Some?
    ensures i < |c| && c[i] == (KEYS[j], answers[j].value)
  {
    var column := (KEYS[j], answers[j].value);
    assert FromField(answers, KEYS, column);
    i :| 0 <= i < |c| && c[i] == column;
  }

  /** The field of a column. */
  lemma {:induction false} FieldOf(fields: seq<string>, answers: seq<Option<seq<int>>>, c: seq<Column>, t: Time, i: nat)
    returns (j: nat)
    requires Described(fields, answers, c, t) && i < |c|
    ensures j < 5 && KEYS[j] == c[i].0 && answers[j] == Some(c[i].1)
    ensures ListMatches(c[i], t) <==> FieldMatches(fields[j], KEYS[j], t)
    ensures c[i].1 != [] <==> exists v :: FieldDenotes(fields[j], KEYS[j], v)
  {
    assert c[i] in c && FromField(answers, KEYS, c[i]);
    j :| 0 <= j < 5 && KEYS[j] == c[i].0 && answers[j] == Some(c[i].1);
    assert FieldAgrees(fields[j], KEYS[j], answers[j], t);
    assert c[i] == (KEYS[j], answers[j].value);
  }

  lemma {:induction false} BothMeans(fields: seq<string>, answers: seq<Option<seq<int>>>, c: seq<Column>, t: Time)
    requires Described(fields, answers, c, t)
    ensures FiresBoth(Rows(c), t) <==> AllFieldsMatch(fields, t)
  {
    RowsBoth(c, t);
    forall j | 0 <= j < 5 && (forall i :: 0 <= i < |c| ==> ListMatches(c[i], t))
      ensures FieldMatches(fields[j], KEYS[j], t)
    {
      assert FieldAgrees(fields[j], KEYS[j], answers[j], t);
      if answers[j].Some? {
        var i := ColumnOf(fields, answers, c, t, j);
      }
    }
    forall i | 0 <= i < |c| && AllFieldsMatch(fields, t) ensures ListMatches(c[i], t) {
      var j := FieldOf(fields, answers, c, t, i);
    }
  }

  lemma {:induction false} EitherListsGive(fields: seq<string>, answers: seq<Option<seq<int>>>, c: seq<Column>, t: Time)
    requires Described(fields, answers, c, t)
    requires answers[2].Some? && answers[4].Some? && EitherListsMatch(c, t)
    ensures EitherFieldsMatch(fields, t) && DayFieldsInhabited(fields)
  {
    assert FieldAgrees(fields[2], KEYS[2], answers[2], t) && FieldAgrees(fields[4], KEYS[4], answers[4], t);
    var a := ColumnOf(fields, answers, c, t, 2);
    var b := ColumnOf(fields, answers, c, t, 4);
    forall j | j == 0 || j == 1 || j == 3 ensures FieldMatches(fields[j], KEYS[j], t) {
      assert FieldAgrees(fields[j], KEYS[j], answers[j], t);
      if answers[j].Some? {
        var i := ColumnOf(fields, answers, c, t, j);
        assert ListMatches(c[i], t);
      }
    }
    assert FieldMatches(fields[0], KEYS[0], t) && FieldMatches(fields[1], KEYS[1], t);
    assert FieldMatches(fields[3], KEYS[3], t);
    var m :| 0 <= m < |c| && c[m].0 in {Day, Weekday} && ListMatches(c[m], t);
    assert m == a || m == b;
    assert c[a].1 != [] && c[b].1 != [];
  }

  lemma {:induction false} EitherFieldsGive(fields: seq<string>, answers: seq<Option<seq<int>>>, c: seq<Column>,
          t: Time)
    requires Described(fields, answers, c, t)
    requires answers[2].Some? && answers[4].Some?
    requires EitherFieldsMatch(fields, t) && DayFieldsInhabited(fields)
    ensures EitherListsMatch(c, t)
  {
    assert FieldAgrees(fields[2], KEYS[2], answers[2], t) && FieldAgrees(fields[4], KEYS[4], answers[4], t);
    forall i | 0 <= i < |c| ensures c[i].1 != [] && (c[i].0 != Day && c[i].0 != Weekday ==> ListMatches(c[i], t)) {
      var j := FieldOf(fields, answers, c, t, i);
      if ListMatches(c[i], t) {
        var v :| v in c[i].1 && ValueMatches(c[i].0, v, t);
      }
    }
    var j := if FieldMatches(fields[2], Day, t) then 2 else 4;
    var i := ColumnOf(fields, answers, c, t, j);
    assert ListMatches(c[i], t);
  }

  lemma {:induction false} EitherMeans(fields: seq<string>, answers: seq<Option<seq<int>>>, c: seq<Column>, t: Time)
    requires Described(fields, answers, c, t)
    requires answers[2].Some? && answers[4].Some?
    ensures FiresEither(Rows(c), t) <==> EitherFieldsMatch(fields, t) && DayFieldsInhabited(fields)
  {
    var a := ColumnOf(fields, answers, c, t, 2);
    var b := ColumnOf(fields, answers, c, t, 4);
    RowsEither(c, t, a, b);
    if EitherListsMatch(c, t) {
      EitherListsGive(fields, answers, c, t);
    }
    if EitherFieldsMatch(fields, t) && DayFieldsInhabited(fields) {
      EitherFieldsGive(fields, answers, c, t);
    }
  }

  // ---- the whole schedule

  /** `parse_every_seconds`. */
  function ParseEverySeconds(value: string): nat
    requires EveryValue(value)
  {
    Amount(value) * (match Unit(value) case 's' => 1 case 'm' => 60 case 'h' => 3600 case 'd' => 86400 case _ => 604800)
  }

  /** The digits of a `*` over n minute field without a leading zero. */
  function MinuteStep(minute: string): Option<nat> {
    if |minute| > 2 && minute[..2] == "*/" && IsDigits(minute[2..]) && minute[2] != '0' then Some(NatOf(minute[2..]))
    else None
  }

  predicate EveryNMinutes(fields: seq<string>)
    requires |fields| == 5
  {
    MinuteStep(fields[0]).Some? && fields[1..] == ["*", "*", "*", "*"]
  }

  /** The emitted calendar fires exactly when the fields say so, under either reading of the two day fields. */
  ghost predicate MeansTheSame(intervals: seq<map<Key, int>>, fields: seq<string>)
    requires |fields| == 5
  {
    forall t ::
      && (FiresBoth(intervals, t) <==> AllFieldsMatch(fields, t))
      && (FiresEither(intervals, t) <==> EitherFieldsMatch(fields, t) && DayFieldsInhabited(fields))
  }

  /** The first `n` fields, read in order up to the first error. */
  ghost function ReadFirst(fields: seq<string>, n: nat): (r: Result<seq<Option<seq<int>>>, FieldError>)
    requires |fields| == 5 && n <= 5
    ensures r.Ok? ==> |r.value| == n
  {
    if n == 0 then Ok([])
    else
      match ReadFirst(fields, n - 1)
      case Err(e) => Err(e)
      case Ok(answers) =>
        match ReadField(fields[n - 1], KEYS[n - 1])
        case Err(e) => Err(e)
        case Ok(answer) => Ok(answers + [answer])
  }

  /** Reading goes through exactly when every field can be read; otherwise the error is the first failing field's. */
  ghost predicate ReadOutcome(fields: seq<string>, n: nat, r: Result<seq<Option<seq<int>>>, FieldError>)
    requires |fields| == 5 && n <= 5
  {
    match r
    case Ok(answers) => |answers| == n && forall i :: 0 <= i < n ==> FieldAnswer(fields[i], KEYS[i], answers[i])
    case Err(e) => FirstFailure(fields, n, e)
  }

  ghost predicate FirstFailure(fields: seq<string>, n: nat, e: FieldError)
    requires |fields| == 5 && n <= 5
  {
    exists i ::
      && 0 <= i < n && ReadField(fields[i], KEYS[i]) == Err(e)
      && forall j :: 0 <= j < i ==> FieldReads(fields[j], KEYS[j])
  }

  lemma {:induction false} ReadFirstExactly(fields: seq<string>, n: nat)
    requires |fields| == 5 && n <= 5
    ensures ReadOutcome(fields, n, ReadFirst(fields, n))
    ensures ReadFirst(fields, n).Ok? <==> forall i :: 0 <= i < n ==> FieldReads(fields[i], KEYS[i])
  {
    if n > 0 {
      var before := ReadFirst(fields, n - 1);
      ReadFirstExactly(fields, n - 1);
      FieldReadsExactly(fields[n - 1], KEYS[n - 1]);
      if before.Err? {
        FailureStays(fields, n - 1, before.error);
      } else if ReadField(fields[n - 1], KEYS[n - 1]).Err? {
        assert forall j :: 0 <= j < n - 1 ==> FieldReads(fields[j], KEYS[j]);
      }
    }
  }

  lemma {:induction false} FailureStays(fields: seq<string>, n: nat, e: FieldError)
    requires |fields| == 5 && n < 5 && FirstFailure(fields, n, e)
    ensures FirstFailure(fields, n + 1, e)
    ensures exists i :: 0 <= i < n && !FieldReads(fields[i], KEYS[i])
  {
    var i :|
      && 0 <= i < n && ReadField(fields[i], KEYS[i]) == Err(e)
      && forall j :: 0 <= j < i ==> FieldReads(fields[j], KEYS[j]);
    FieldReadsExactly(fields[i], KEYS[i]);
  }

  /** The five calls of `parse_calendar_field`. */
  method ReadFields(fields: seq<string>) returns (r: Result<seq<Option<seq<int>>>, FieldError>)
    requires |fields| == 5
    ensures r == ReadFirst(fields, 5)
  {
    var answers: seq<Option<seq<int>>> := [];
    for i := 0 to 5
      invariant ReadFirst(fields, i) == Ok(answers)
    {
      var answer := ParseCalendarField(fields[i], KEYS[i]);
      if answer.Err? {
        FirstErrorStays(fields, i + 1, answer.error);
        return Err(answer.error);
      }
      answers := answers + [answer.value];
    }
    return Ok(answers);
  }

  lemma {:induction false} FirstErrorStays(fields: seq<string>, n: nat, e: FieldError)
    requires |fields| == 5 && n <= 5 && ReadFirst(fields, n) == Err(e)
    ensures ReadFirst(fields, 5) == Err(e)
    decreases 5 - n
  {
    if n < 5 {
      FirstErrorStays(fields, n + 1, e);
    }
  }

  lemma {:induction false} RowsMeanTheSame(fields: seq<string>, answers: seq<Option<seq<int>>>)
    requires Answered(fields, answers)
    ensures MeansTheSame(Rows(SpecifiedColumns(answers, KEYS)), fields)
  {
    var rows := Rows(SpecifiedColumns(answers, KEYS));
    forall t
      ensures FiresBoth(rows, t) <==> AllFieldsMatch(fields, t)
      ensures FiresEither(rows, t) <==> EitherFieldsMatch(fields, t) && DayFieldsInhabited(fields)
    {
      CalendarMeans(fields, answers, t);
    }
  }

  lemma {:induction false} AnswerSorted(field: string, key: Key, values: seq<int>)
    requires FieldAnswer(field, key, Some(values))
    ensures Calendar.Ascending(values) && |values| == FieldSize(field, key)
  {
    SortedListExactly(AllValues(ParsedElements(SplitOn(field, ','), key).value));
  }

  lemma {:induction false} EmittedDistinct(answers: seq<Option<seq<int>>>, fields: seq<string>)
    requires Answered(fields, answers)
    ensures NoRepeats(Rows(SpecifiedColumns(answers, KEYS)))
    ensures |Rows(SpecifiedColumns(answers, KEYS))| == RowCount(SpecifiedColumns(answers, KEYS))
  {
    var c := SpecifiedColumns(answers, KEYS);
    ColumnsDistinct(answers, KEYS);
    ColumnsFromFields(answers, KEYS);
    forall i | 0 <= i < |c| ensures Calendar.Ascending(c[i].1) {
      assert c[i] in c && FromField(answers, KEYS, c[i]);
      var j :| 0 <= j < 5 && KEYS[j] == c[i].0 && answers[j] == Some(c[i].1);
      AnswerSorted(fields[j], KEYS[j], c[i].1);
    }
    RowsDistinct(c);
  }

  lemma {:induction false} EmittedRows(fields: seq<string>, answers: seq<Option<seq<int>>>)
    requires Answered(fields, answers)
    ensures var c := SpecifiedColumns(answers, KEYS);
      && MeansTheSame(Rows(c), fields) && NoRepeats(Rows(c)) && |Rows(c)| == RowCount(c)
      && (c == [] ==> forall i :: 0 <= i < 5 ==> fields[i] == "*")
  {
    var c := SpecifiedColumns(answers, KEYS);
    RowsMeanTheSame(fields, answers);
    EmittedDistinct(answers, fields);
    ColumnsFromFields(answers, KEYS);
    forall i | 0 <= i < 5 && c == [] ensures fields[i] == "*" {
      if answers[i].Some? {
        assert FromField(answers, KEYS, (KEYS[i], answers[i].value));
      }
    }
  }

  // ---- how many dictionaries

  /** The number of values of a field, one for a field that is left out. */
  function FieldSize(field: string, key: Key): nat {
    if field == "*" then 1
    else
      match ParsedElements(SplitOn(field, ','), key)
      case Err(_) => 0
      case Ok(elements) => |AllValues(elements)|
  }

  function FieldProduct(fields: seq<string>, keys: seq<Key>): nat
    requires |fields| == |keys|
  {
    if fields == [] then 1 else FieldSize(fields[0], keys[0]) * FieldProduct(fields[1..], keys[1..])
  }

  lemma {:induction false} ProductOfFields(fields: seq<string>, keys: seq<Key>, answers: seq<Option<seq<int>>>)
    requires |fields| == |keys| == |answers|
    requires forall i :: 0 <= i < |fields| ==> FieldAnswer(fields[i], keys[i], answers[i])
    ensures RowCount(SpecifiedColumns(answers, keys)) == FieldProduct(fields, keys)
  {
    if fields != [] {
      var rest := SpecifiedColumns(answers[1..], keys[1..]);
      ProductOfFields(fields[1..], keys[1..], answers[1..]);
      if answers[0].Some? {
        assert SpecifiedColumns(answers, keys)[1..] == rest;
        AnswerSorted(fields[0], keys[0], answers[0].value);
      } else {
        assert SpecifiedColumns(answers, keys) == rest;
      }
    }
  }

  // ---- the compiler

  /** Schedules that launchd can be given: interval forms, and five fields whose elements can all be read. */
  predicate LaunchdExpressible(schedule: Schedule) {
    schedule.kind == EverySchedule ||
    (|Fields(schedule.value)| == 5 && FieldsExpressible(Fields(schedule.value)))
  }

  predicate FieldsExpressible(fields: seq<string>)
    requires |fields| == 5
  {
    EveryNMinutes(fields) || forall i :: 0 <= i < 5 ==> FieldReads(fields[i], KEYS[i])
  }

  /** What the schedule is compiled to, or the error that stops the compiler. */
  ghost function Compile(schedule: Schedule): Result<StartKey, FieldError>
    requires schedule.kind == EverySchedule ==> EveryValue(schedule.value)
  {
    if schedule.kind == EverySchedule then Ok(StartInterval(ParseEverySeconds(schedule.value)))
    else
      var fields := Fields(schedule.value);
      if |fields| != 5 then Err(BadFieldCount(schedule.value))
      else if EveryNMinutes(fields) then Ok(StartInterval(MinuteStep(fields[0]).value * 60))
      else
        match ReadFirst(fields, 5)
        case Err(e) => Err(e)
        case Ok(answers) =>
          var specified := SpecifiedColumns(answers, KEYS);
          Ok(if specified == [] then StartInterval(60) else StartCalendar(Rows(specified)))
  }

  /** What the cron form must become. */
  ghost predicate CronAnswer(fields: seq<string>, key: StartKey)
    requires |fields| == 5
  {
    match key
    case StartInterval(seconds) =>
      if EveryNMinutes(fields) then seconds == MinuteStep(fields[0]).value * 60
      else seconds == 60 && forall i :: 0 <= i < 5 ==> fields[i] == "*"
    case StartCalendar(intervals) =>
      && !EveryNMinutes(fields) && NoRepeats(intervals) && MeansTheSame(intervals, fields)
      && |intervals| == FieldProduct(fields, KEYS)
  }

  /** Why the compiler stops. */
  ghost predicate CompileFailure(fields: seq<string>, value: string, e: FieldError) {
    if |fields| != 5 then e == BadFieldCount(value) else !EveryNMinutes(fields) && FirstFailure(fields, 5, e)
  }

  /** A schedule compiles if and only if it is expressible; then the result means the same, without repeats and of the
      product size, and otherwise the error is the first failing field's. */
  lemma {:induction false} CompileExactly(schedule: Schedule)
    requires schedule.kind == EverySchedule ==> EveryValue(schedule.value)
    ensures Compile(schedule).Ok? <==> LaunchdExpressible(schedule)
    ensures schedule.kind == ScheduleKind.CronSchedule && Compile(schedule).Ok? ==>
      |Fields(schedule.value)| == 5 && CronAnswer(Fields(schedule.value), Compile(schedule).value)
    ensures Compile(schedule).Err? ==> CompileFailure(Fields(schedule.value), schedule.value, Compile(schedule).error)
  {
    var fields := Fields(schedule.value);
    if schedule.kind == ScheduleKind.CronSchedule && |fields| == 5 && !EveryNMinutes(fields) {
      ReadFirstExactly(fields, 5);
      if ReadFirst(fields, 5).Ok? {
        EmittedRows(fields, ReadFirst(fields, 5).value);
        ProductOfFields(fields, KEYS, ReadFirst(fields, 5).value);
      }
    }
  }

  /** `render_launchd_schedule`: the interval forms, and otherwise a calendar that means the same as the fields. */
  method RenderLaunchdSchedule(schedule: Schedule) returns (r: Result<StartKey, FieldError>)
    requires schedule.kind == EverySchedule ==> EveryValue(schedule.value)
    ensures r == Compile(schedule)
    ensures r.Ok? <==> LaunchdExpressible(schedule)
    ensures schedule.kind == EverySchedule ==> r == Ok(StartInterval(ParseEverySeconds(schedule.value)))
    ensures schedule.kind == ScheduleKind.CronSchedule && r.Ok? ==>
      |Fields(schedule.value)| == 5 && CronAnswer(Fields(schedule.value), r.value)
    ensures r.Err? ==> CompileFailure(Fields(schedule.value), schedule.value, r.error)
  {
    CompileExactly(schedule);
    if schedule.kind == EverySchedule {
      return Ok(StartInterval(ParseEverySeconds(schedule.value)));
    }
    var fields := Fields(schedule.value);
    if |fields| != 5 {
      return Err(BadFieldCount(schedule.value));
    }
    if EveryNMinutes(fields) {
      return Ok(StartInterval(MinuteStep(fields[0]).value * 60));
    }
    var answers := ReadFields(fields);
    if answers.Err? {
      return Err(answers.error);
    }
    var specified := SpecifiedColumns(answers.value, KEYS);
    if specified == [] {
      return Ok(StartInterval(60));
    }
    return Ok(StartCalendar(Rows(specified)));
  }

  /** Validation admits the names of weekdays; the compiler does not read them. */
  lemma {:induction false} NamedWeekday()
    ensures var s := Schedule(ScheduleKind.CronSchedule, JoinBlanks(["0", "9", "*", "*", "MON"]));
      ValidSchedule(s) && !LaunchdExpressible(s) && Compile(s).Err?
  {
    var fields := ["0", "9", "*", "*", "MON"];
    var s := Schedule(ScheduleKind.CronSchedule, JoinBlanks(fields));
    JoinedExpression(fields);
    SplitPlain("MON", ',');
    NoNumber();
    assert !FieldReads(fields[4], KEYS[4]);
    CompileExactly(s);
  }

  lemma {:induction false} NoNumber()
    ensures ParseElement("MON", Weekday).Err?
  {
    assert "MON"[0] == 'M' && !IsDigit('M');
  }
}
