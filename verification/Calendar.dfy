/** Cron fields compiled to launchd calendar dictionaries, and what both sides mean. */
module Calendar {
  import opened Contracts
  import opened CronSchedule

  datatype Key = Minute | Hour | Day | Month | Weekday

  function Bounds(key: Key): (int, int) {
    match key
    case Minute => (0, 59)
    case Hour => (0, 23)
    case Day => (1, 31)
    case Month => (1, 12)
    case Weekday => (0, 7)
  }

  datatype FieldError = BadNumber(text: string) | ZeroStep(part: string) | BadFieldCount(value: string)

  // ---- reading a field

  /** `int(s)` on the characters that a validated cron field may hold. */
  function ParseInt(s: string): Option<int> {
    if IsDigits(s) then Some(NatOf(s))
    else if |s| > 1 && s[0] == '-' && IsDigits(s[1..]) then Some(0 - NatOf(s[1..]))
    else None
  }

  /** `s.split(separator)`. */
  function SplitOn(s: string, separator: char): (parts: seq<string>)
    ensures parts != []
  {
    if s == "" then [""]
    else if s[0] == separator then [""] + SplitOn(s[1..], separator)
    else
      var rest := SplitOn(s[1..], separator);
      [[s[0]] + rest[0]] + rest[1..]
  }

  lemma {:induction false} SplitPlain(s: string, separator: char)
    requires separator !in s
    ensures SplitOn(s, separator) == [s]
  {
    if s != "" {
      SplitPlain(s[1..], separator);
      assert s == [s[0]] + s[1..];
    }
  }

  /** `s.partition(separator)` without the separator. */
  function Partition(s: string, separator: char): (string, string) {
    if s == "" then ("", "")
    else if s[0] == separator then ("", s[1..])
    else
      var rest := Partition(s[1..], separator);
      ([s[0]] + rest.0, rest.1)
  }

  /** The arguments that one part of a list hands to `range`: both ends inclusive. */
  datatype Element = Element(start: int, end: int, step: int)

  function ParseNumber(s: string): Result<int, FieldError> {
    match ParseInt(s)
    case None => Err(BadNumber(s))
    case Some(n) => Ok(n)
  }

  function ParsePair(s: string): Result<(int, int), FieldError> {
    var ends := Partition(s, '-');
    var lo :- ParseNumber(ends.0);
    var hi :- ParseNumber(ends.1);
    Ok((lo, hi))
  }

  function ParseElement(part: string, key: Key): Result<Element, FieldError> {
    if '/' in part then
      var pieces := Partition(part, '/');
      var step :- ParseNumber(pieces.1);
      var ends :- if pieces.0 == "*" then Ok(Bounds(key))
                  else if '-' in pieces.0 then ParsePair(pieces.0)
                  else match ParseNumber(pieces.0) { case Ok(n) => Ok((n, Bounds(key).1)) case Err(e) => Err(e) };
      if step == 0 then Err(ZeroStep(part)) else Ok(Element(ends.0, ends.1, step))
    else if '-' in part then
      var ends :- ParsePair(part);
      Ok(Element(ends.0, ends.1, 1))
    else
      var n :- ParseNumber(part);
      Ok(Element(n, n, 1))
  }

  predicate OnStep(e: Element, x: int) {
    e.step != 0 && (if e.step > 0 then (x - e.start) % e.step == 0 else (e.start - x) % -e.step == 0)
  }

  /** The values of `range(start, end + 1, step)`. */
  function RangeValues(e: Element): set<int> {
    if e.step > 0 then set x | e.start <= x <= e.end && OnStep(e, x)
    else set x | e.end + 1 < x <= e.start && OnStep(e, x)
  }

  /** What one element of a cron list means: every step-th value from the start up to the end, counting down for a
      negative step. */
  ghost predicate ElementDenotes(e: Element, v: int) {
    exists k: nat :: v == e.start + k * e.step && (if e.step > 0 then v <= e.end else e.end + 1 < v)
  }

  lemma {:induction false} RangeMeans(e: Element, v: int)
    requires e.step != 0
    ensures v in RangeValues(e) <==> ElementDenotes(e, v)
  {
    if v in RangeValues(e) {
      if e.step > 0 {
        var k := (v - e.start) / e.step;
        assert v == e.start + k * e.step;
      } else {
        var k := (e.start - v) / -e.step;
        assert e.start - v == -e.step * k;
        assert v == e.start + k * e.step;
      }
    }
    if ElementDenotes(e, v) {
      var k: nat :| v == e.start + k * e.step && (if e.step > 0 then v <= e.end else e.end + 1 < v);
      if e.step > 0 {
        MultipleMod(k, e.step);
        assert k * e.step >= 0;
      } else {
        assert e.start - v == k * -e.step;
        MultipleMod(k, -e.step);
        assert k * -e.step >= 0;
      }
    }
  }

  lemma {:induction false} MultipleMod(k: nat, n: int)
    requires n > 0
    ensures k * n >= 0 && (k * n) % n == 0
  {
    if k > 0 {
      MultipleMod(k - 1, n);
      assert k * n == (k - 1) * n + n;
      AddModulus((k - 1) * n, n);
    }
  }

  lemma {:induction false} AddModulus(x: int, n: int)
    requires n > 0
    ensures (x + n) % n == x % n
  {
    assert x == n * (x / n) + x % n;
    UniqueRemainder(x + n, n, x / n + 1, x % n);
  }

  lemma {:induction false} MultipleSize(n: int, d: int)
    requires n > 0
    ensures d >= 1 ==> n * d >= n
    ensures d <= -1 ==> n * d <= -n
  {
  }

  lemma {:induction false} UniqueRemainder(x: int, n: int, q: int, r: int)
    requires n > 0 && 0 <= r < n && x == n * q + r
    ensures x / n == q && x % n == r
  {
    var d := x / n - q;
    assert x == n * (x / n) + x % n;
    assert n * d == r - x % n;
    MultipleSize(n, d);
  }

  // ---- a whole field

  function ParsedElements(parts: seq<string>, key: Key): Result<seq<Element>, FieldError> {
    if parts == [] then Ok([])
    else
      match ParsedElements(parts[..|parts| - 1], key)
      case Err(e) => Err(e)
      case Ok(before) =>
        match ParseElement(parts[|parts| - 1], key)
        case Err(e) => Err(e)
        case Ok(element) => Ok(before + [element])
  }

  function AllValues(elements: seq<Element>): set<int> {
    if elements == [] then {} else AllValues(elements[..|elements| - 1]) + RangeValues(elements[|elements| - 1])
  }

  predicate Ascending(values: seq<int>) {
    forall i, j :: 0 <= i < j < |values| ==> values[i] < values[j]
  }

  ghost function AnyOf<T>(s: set<T>): (x: T)
    requires s != {}
    ensures x in s
  {
    var x :| x in s; x
  }

  ghost function Least(values: set<int>): (m: int)
    requires values != {}
    ensures m in values && forall w :: w in values ==> m <= w
  {
    LeastExists(values, AnyOf(values));
    var m :| m in values && forall w :: w in values ==> m <= w;
    m
  }

  /** The numbers of a set in ascending order. */
  ghost function SortedList(values: set<int>): seq<int>
    decreases |values|
  {
    if values == {} then [] else [Least(values)] + SortedList(values - {Least(values)})
  }

  lemma {:induction false} SortedListExactly(values: set<int>)
    ensures Ascending(SortedList(values)) && |SortedList(values)| == |values|
    ensures forall v :: v in SortedList(values) <==> v in values
    decreases |values|
  {
    if values != {} {
      var m := Least(values);
      SortedListExactly(values - {m});
      LeastFirst(values, m, SortedList(values - {m}));
    }
  }

  lemma {:induction false} LeastFirst(values: set<int>, m: int, rest: seq<int>)
    requires m in values && forall w :: w in values ==> m <= w
    requires Ascending(rest) && |rest| == |values - {m}| && forall v :: v in rest <==> v in values - {m}
    ensures Ascending([m] + rest) && |[m] + rest| == |values| && forall v :: v in [m] + rest <==> v in values
  {
    assert values == {m} + (values - {m});
    assert forall i :: 0 <= i < |rest| ==> rest[i] in rest;
  }

  lemma {:induction false} AscendingUnique(a: seq<int>, b: seq<int>)
    requires Ascending(a) && Ascending(b) && forall v :: v in a <==> v in b
    ensures a == b
  {
    assert b != [] ==> b[0] in b;
    if a != [] {
      assert a[0] in a && a[0] in b;
      assert b[0] in a;
      assert a == [a[0]] + a[1..] && b == [b[0]] + b[1..];
      forall v ensures v in a[1..] <==> v in b[1..] {
        assert v in a[1..] <==> v in a && v != a[0];
        assert v in b[1..] <==> v in b && v != b[0];
      }
      AscendingUnique(a[1..], b[1..]);
    }
  }

  /** `sorted` of a set of numbers. */
  method SortedValues(values: set<int>) returns (r: seq<int>)
    ensures r == SortedList(values)
  {
    r := [];
    var rest := values;
    while rest != {}
      invariant rest <= values
      invariant forall v :: v in r <==> v in values && v !in rest
      invariant Ascending(r) && forall v, w :: v in r && w in rest ==> v < w
      decreases rest
    {
      LeastExists(rest, AnyOf(rest));
      var m :| m in rest && forall w :: w in rest ==> m <= w;
      assert forall i :: 0 <= i < |r| ==> r[i] in r;
      r := r + [m];
      rest := rest - {m};
    }
    SortedListExactly(values);
    AscendingUnique(r, SortedList(values));
  }

  lemma {:induction false} LeastExists(values: set<int>, x: int)
    requires x in values
    ensures exists m :: m in values && forall w :: w in values ==> m <= w
    decreases |values|
  {
    var rest := values - {x};
    assert values == {x} + rest && |rest| < |values|;
    var least := x;
    if rest != {} {
      LeastExists(rest, AnyOf(rest));
      var m :| m in rest && forall w :: w in rest ==> m <= w;
      least := if x <= m then x else m;
    }
    assert least in values && forall w :: w in values ==> least <= w;
  }

  /** What `parse_calendar_field` answers: nothing for `*`, the sorted values otherwise, and the error of the first
      element that `int` or `range` rejects. */
  ghost function ReadField(field: string, key: Key): Result<Option<seq<int>>, FieldError> {
    if field == "*" then Ok(None)
    else
      match ParsedElements(SplitOn(field, ','), key)
      case Err(e) => Err(e)
      case Ok(elements) => Ok(Some(SortedList(AllValues(elements))))
  }

  /** The field is `*`, or every element of its list can be read. */
  predicate FieldReads(field: string, key: Key) {
    field == "*" || forall i :: 0 <= i < |SplitOn(field, ',')| ==> ParseElement(SplitOn(field, ',')[i], key).Ok?
  }

  predicate FirstBadElement(parts: seq<string>, key: Key, e: FieldError) {
    exists i ::
      && 0 <= i < |parts| && ParseElement(parts[i], key) == Err(e)
      && forall j :: 0 <= j < i ==> ParseElement(parts[j], key).Ok?
  }

  /** A list is read if and only if each of its elements is; otherwise the first element that is not gives the error. */
  lemma {:induction false} ParsedExactly(parts: seq<string>, key: Key)
    ensures ParsedElements(parts, key).Ok? <==> forall i :: 0 <= i < |parts| ==> ParseElement(parts[i], key).Ok?
    ensures ParsedElements(parts, key).Err? ==> FirstBadElement(parts, key, ParsedElements(parts, key).error)
  {
    if parts != [] {
      var init := parts[..|parts| - 1];
      ParsedExactly(init, key);
      assert forall i :: 0 <= i < |init| ==> init[i] == parts[i];
    }
  }

  lemma {:induction false} FieldReadsExactly(field: string, key: Key)
    ensures ReadField(field, key).Ok? <==> FieldReads(field, key)
  {
    ParsedExactly(SplitOn(field, ','), key);
  }

  /** The loop over the elements of a field, which fills a set. */
  method CollectValues(parts: seq<string>, key: Key) returns (r: Result<set<int>, FieldError>)
    ensures r.Ok? <==> ParsedElements(parts, key).Ok?
    ensures r.Ok? ==> r.value == AllValues(ParsedElements(parts, key).value)
    ensures r.Err? ==> ParsedElements(parts, key) == Err(r.error)
  {
    var values: set<int> := {};
    ghost var elements: seq<Element> := [];
    for i := 0 to |parts|
      invariant ParsedElements(parts[..i], key) == Ok(elements)
      invariant values == AllValues(elements)
    {
      assert parts[..i + 1][..i] == parts[..i];
      var element := ParseElement(parts[i], key);
      if element.Err? {
        FirstErrorStays(parts, key, i + 1);
        return Err(element.error);
      }
      assert (elements + [element.value])[..|elements|] == elements;
      values := values + RangeValues(element.value);
      elements := elements + [element.value];
    }
    assert parts[..|parts|] == parts;
    return Ok(values);
  }

  /** `parse_calendar_field`. */
  method ParseCalendarField(field: string, key: Key) returns (r: Result<Option<seq<int>>, FieldError>)
    ensures r == ReadField(field, key)
    ensures r.Ok? <==> FieldReads(field, key)
  {
    FieldReadsExactly(field, key);
    if field == "*" {
      return Ok(None);
    }
    var values := CollectValues(SplitOn(field, ','), key);
    if values.Err? {
      return Err(values.error);
    }
    var sorted := SortedValues(values.value);
    return Ok(Some(sorted));
  }

  lemma {:induction false} FirstErrorStays(parts: seq<string>, key: Key, n: nat)
    requires n <= |parts| && ParsedElements(parts[..n], key).Err?
    ensures ParsedElements(parts, key) == ParsedElements(parts[..n], key)
    decreases |parts|
  {
    if n == |parts| {
      assert parts[..n] == parts;
    } else {
      assert parts[..|parts| - 1][..n] == parts[..n];
      FirstErrorStays(parts[..|parts| - 1], key, n);
    }
  }

  // ---- the product of the fields

  datatype StartKey = StartInterval(seconds: int) | StartCalendar(intervals: seq<map<Key, int>>)

  /** A field with its list of values. */
  type Column = (Key, seq<int>)

  predicate DistinctKeys(columns: seq<Column>) {
    forall i, j :: 0 <= i < j < |columns| ==> columns[i].0 != columns[j].0
  }

  function WithValue(key: Key, value: int, rows: seq<map<Key, int>>): (r: seq<map<Key, int>>)
    ensures |r| == |rows|
    ensures forall i :: 0 <= i < |rows| ==> r[i] == rows[i][key := value]
  {
    seq(|rows|, i requires 0 <= i < |rows| => rows[i][key := value])
  }

  function Spread(key: Key, values: seq<int>, rows: seq<map<Key, int>>): seq<map<Key, int>> {
    if values == [] then [] else WithValue(key, values[0], rows) + Spread(key, values[1..], rows)
  }

  /** `product` over the columns, as dictionaries, the last column turning fastest. */
  function Rows(columns: seq<Column>): seq<map<Key, int>> {
    if columns == [] then [map[]] else Spread(columns[0].0, columns[0].1, Rows(columns[1..]))
  }

  function RowCount(columns: seq<Column>): nat {
    if columns == [] then 1 else |columns[0].1| * RowCount(columns[1..])
  }

  lemma {:induction false} SpreadLength(key: Key, values: seq<int>, rows: seq<map<Key, int>>)
    ensures |Spread(key, values, rows)| == |values| * |rows|
  {
    if values != [] {
      SpreadLength(key, values[1..], rows);
      assert |values| * |rows| == |rows| + (|values| - 1) * |rows|;
    }
  }

  lemma {:induction false} WithValueMembers(key: Key, value: int, rows: seq<map<Key, int>>, d: map<Key, int>)
    ensures d in WithValue(key, value, rows) <==> exists row :: row in rows && d == row[key := value]
  {
    var r := WithValue(key, value, rows);
    if d in r {
      var i :| 0 <= i < |r| && r[i] == d;
      assert rows[i] in rows;
    }
    if row :| row in rows && d == row[key := value] {
      var i :| 0 <= i < |rows| && rows[i] == row;
      assert r[i] == d;
    }
  }

  lemma {:induction false} SpreadMembers(key: Key, values: seq<int>, rows: seq<map<Key, int>>, d: map<Key, int>)
    ensures d in Spread(key, values, rows) <==> exists v, row :: v in values && row in rows && d == row[key := v]
  {
    if values != [] {
      SpreadMembers(key, values[1..], rows, d);
      WithValueMembers(key, values[0], rows, d);
      assert forall v :: v in values <==> v == values[0] || v in values[1..];
      assert values[0] in values;
    }
  }

  /** A dictionary of the product: one value of each column and nothing else. */
  ghost predicate IsRow(columns: seq<Column>, d: map<Key, int>) {
    && (forall k :: k in d <==> exists i :: 0 <= i < |columns| && columns[i].0 == k)
    && forall i :: 0 <= i < |columns| && columns[i].0 in d ==> d[columns[i].0] in columns[i].1
  }

  lemma {:induction false} RowsExactly(columns: seq<Column>, d: map<Key, int>)
    requires DistinctKeys(columns)
    ensures d in Rows(columns) <==> IsRow(columns, d)
  {
    if columns == [] {
      assert d in Rows(columns) <==> d == map[];
      assert d == map[] <==> forall k :: k !in d;
    } else {
      var key, rest := columns[0].0, columns[1..];
      RestDistinct(columns);
      if d in Rows(columns) {
        SpreadMembers(key, columns[0].1, Rows(rest), d);
        var v, row :| v in columns[0].1 && row in Rows(rest) && d == row[key := v];
        RowsExactly(rest, row);
        RowGrows(columns, row, v);
      }
      if IsRow(columns, d) {
        RowShrinks(columns, d);
        RowsExactly(rest, d - {key});
        BuildRow(columns, d, d - {key});
      }
    }
  }

  lemma {:induction false} RestDistinct(columns: seq<Column>)
    requires DistinctKeys(columns) && columns != []
    ensures DistinctKeys(columns[1..])
  {
  }

  lemma {:induction false} BuildRow(columns: seq<Column>, d: map<Key, int>, row: map<Key, int>)
    requires columns != [] && columns[0].0 in d && d[columns[0].0] in columns[0].1
    requires row == d - {columns[0].0} && row in Rows(columns[1..])
    ensures d in Rows(columns)
  {
    var key, v := columns[0].0, d[columns[0].0];
    assert d == row[key := v];
    assert v in columns[0].1 && row in Rows(columns[1..]);
    SpreadMembers(columns[0].0, columns[0].1, Rows(columns[1..]), d);
  }

  lemma {:induction false} RowGrows(columns: seq<Column>, row: map<Key, int>, v: int)
    requires DistinctKeys(columns) && columns != []
    requires IsRow(columns[1..], row) && v in columns[0].1
    ensures IsRow(columns, row[columns[0].0 := v])
  {
    var rest := columns[1..];
    var d := row[columns[0].0 := v];
    forall k ensures k in d <==> exists i :: 0 <= i < |columns| && columns[i].0 == k {
      if k in row {
        var i :| 0 <= i < |rest| && rest[i].0 == k;
        assert columns[i + 1].0 == k;
      }
      if i :| 1 <= i < |columns| && columns[i].0 == k {
        assert rest[i - 1].0 == k;
      }
    }
    forall i | 0 <= i < |columns| ensures d[columns[i].0] in columns[i].1 {
      if i > 0 {
        assert rest[i - 1] == columns[i];
      }
    }
  }

  lemma {:induction false} RowShrinks(columns: seq<Column>, d: map<Key, int>)
    requires DistinctKeys(columns) && columns != []
    requires IsRow(columns, d)
    ensures columns[0].0 in d && d[columns[0].0] in columns[0].1
    ensures IsRow(columns[1..], d - {columns[0].0})
  {
    var rest := columns[1..];
    var row := d - {columns[0].0};
    forall k ensures k in row <==> exists i :: 0 <= i < |rest| && rest[i].0 == k {
      if k in row {
        var i :| 0 <= i < |columns| && columns[i].0 == k;
        assert rest[i - 1].0 == k;
      }
      if i :| 0 <= i < |rest| && rest[i].0 == k {
        assert columns[i + 1].0 == k;
      }
    }
    forall i | 0 <= i < |rest| && rest[i].0 in row ensures row[rest[i].0] in rest[i].1 {
      assert columns[i + 1] == rest[i];
    }
  }

  predicate NoRepeats<T(==)>(s: seq<T>) {
    forall i, j :: 0 <= i < j < |s| ==> s[i] != s[j]
  }

  lemma {:induction false} SpreadDistinct(key: Key, values: seq<int>, rows: seq<map<Key, int>>)
    requires NoRepeats(values) && NoRepeats(rows)
    requires forall i :: 0 <= i < |rows| ==> key !in rows[i]
    ensures NoRepeats(Spread(key, values, rows))
  {
    if values != [] {
      var head, tail := WithValue(key, values[0], rows), Spread(key, values[1..], rows);
      SpreadDistinct(key, values[1..], rows);
      forall i, j | 0 <= i < j < |head| ensures head[i] != head[j] {
        assert rows[i] == head[i] - {key} && rows[j] == head[j] - {key};
      }
      forall i, j | 0 <= i < |head| && 0 <= j < |tail| ensures head[i] != tail[j] {
        SpreadMembers(key, values[1..], rows, tail[j]);
        assert tail[j] in tail;
        var v, row :| v in values[1..] && row in rows && tail[j] == row[key := v];
        assert head[i][key] == values[0] && tail[j][key] == v;
      }
    }
  }

  /** No dictionary is repeated, and there are as many as the product of the list sizes. */
  lemma {:induction false} RowsDistinct(columns: seq<Column>)
    requires DistinctKeys(columns)
    requires forall i :: 0 <= i < |columns| ==> Ascending(columns[i].1)
    ensures NoRepeats(Rows(columns)) && |Rows(columns)| == RowCount(columns)
  {
    if columns != [] {
      var rest := columns[1..];
      RowsDistinct(rest);
      SpreadLength(columns[0].0, columns[0].1, Rows(rest));
      forall i | 0 <= i < |Rows(rest)| ensures columns[0].0 !in Rows(rest)[i] {
        RowsExactly(rest, Rows(rest)[i]);
        assert Rows(rest)[i] in Rows(rest);
        assert forall j :: 0 <= j < |rest| ==> rest[j] == columns[j + 1];
      }
      assert Ascending(columns[0].1);
      SpreadDistinct(columns[0].0, columns[0].1, Rows(rest));
    }
  }
}
