/** What the text of a cron field means, read straight off its characters. */
module CalendarText {
  import opened Contracts
  import opened CronSchedule
  import opened Calendar
  import opened LaunchdSchedule

  // ---- the grammar of one part

  /** A decimal number, with a minus sign in front if it is negative. */
  ghost predicate Numeral(s: string, x: int) {
    || (IsDigits(s) && x == NatOf(s))
    || (exists d :: IsDigits(d) && s == "-" + d && x == 0 - NatOf(d))
  }

  /** `a-b`. */
  ghost predicate Pair(s: string, lo: int, hi: int) {
    exists a, b :: IsDigits(a) && NatOf(a) == lo && Numeral(b, hi) && s == a + "-" + b
  }

  /** What stands before a slash: `*`, `a-b`, or `a` for everything from a on. */
  ghost predicate Stretch(s: string, key: Key, lo: int, hi: int) {
    || (s == "*" && (lo, hi) == Bounds(key))
    || (IsDigits(s) && lo == NatOf(s) && hi == Bounds(key).1)
    || Pair(s, lo, hi)
  }

  /** One part of a list stands for the numbers from `lo` to `hi` in steps. */
  ghost predicate PartMeans(part: string, key: Key, lo: int, hi: int, step: int) {
    || (IsDigits(part) && lo == hi == NatOf(part) && step == 1)
    || (Pair(part, lo, hi) && step == 1)
    || (exists s, n :: part == s + "/" + n && Stretch(s, key, lo, hi) && Numeral(n, step) && step != 0)
  }

  /** The numbers from `lo` up to `hi`, or for a negative step from `lo` down to above `hi + 1`. */
  predicate Counts(lo: int, hi: int, step: int, v: int)
    requires step != 0
  {
    if step > 0 then lo <= v <= hi && (v - lo) % step == 0 else hi + 1 < v <= lo && (lo - v) % -step == 0
  }

  ghost predicate PartDenotes(part: string, key: Key, v: int) {
    exists lo, hi, step :: PartMeans(part, key, lo, hi, step) && step != 0 && Counts(lo, hi, step, v)
  }

  ghost predicate PartReads(part: string, key: Key) {
    exists lo, hi, step :: PartMeans(part, key, lo, hi, step)
  }

  lemma {:induction false} BoundsExactly()
    ensures Bounds(Minute) == (0, 59) && Bounds(Hour) == (0, 23)
    ensures Bounds(Day) == (1, 31) && Bounds(Month) == (1, 12) && Bounds(Weekday) == (0, 7)
  {
  }

  lemma {:induction false} NumeralExactly(s: string, x: int)
    ensures ParseInt(s) == Some(x) <==> Numeral(s, x)
  {
    if ParseInt(s) == Some(x) && !IsDigits(s) {
      assert s == "-" + s[1..];
    }
    if d :| IsDigits(d) && s == "-" + d && x == 0 - NatOf(d) {
      assert s[1..] == d && s[0] == '-' && !IsDigits(s);
    }
  }

  lemma {:induction false} PartitionFound(s: string, c: char)
    requires c in s
    ensures s == Partition(s, c).0 + [c] + Partition(s, c).1 && c !in Partition(s, c).0
  {
    if s[0] != c {
      assert s == [s[0]] + s[1..];
      PartitionFound(s[1..], c);
    }
  }

  lemma {:induction false} PartitionOf(a: string, c: char, b: string)
    requires c !in a
    ensures Partition(a + [c] + b, c) == (a, b) && c in a + [c] + b
  {
    var s := a + [c] + b;
    if a == "" {
      assert s == [c] + b;
    } else {
      var rest := a[1..] + [c] + b;
      assert s[0] == a[0] && s[1..] == rest;
      PartitionOf(a[1..], c, b);
      assert a == [a[0]] + a[1..];
    }
  }

  lemma {:induction false} NumeralChars(s: string, x: int)
    requires Numeral(s, x)
    ensures '/' !in s && ',' !in s && s != "" && s != "*"
  {
    assert IsDigits(s) ==> IsDigit(s[0]);
    if d :| IsDigits(d) && s == "-" + d && x == 0 - NatOf(d) {
      assert s[0] == '-';
      assert forall i :: 0 < i < |s| ==> s[i] == d[i - 1];
    }
  }

  lemma {:induction false} DigitsPlain(s: string)
    requires IsDigits(s)
    ensures '/' !in s && ',' !in s && '-' !in s && '*' !in s
  {
  }

  lemma {:induction false} PairExactly(s: string, lo: int, hi: int)
    requires '-' in s
    ensures ParsePair(s) == Ok((lo, hi)) <==> Pair(s, lo, hi)
  {
    var ends := Partition(s, '-');
    PartitionFound(s, '-');
    NumeralExactly(ends.1, hi);
    assert s == ends.0 + "-" + ends.1;
    if ParsePair(s) == Ok((lo, hi)) {
      NumeralExactly(ends.0, lo);
      assert IsDigits(ends.0);
    }
    if a, b :| IsDigits(a) && NatOf(a) == lo && Numeral(b, hi) && s == a + "-" + b {
      DigitsPlain(a);
      PartitionOf(a, '-', b);
      assert ends == (a, b);
      assert IsDigits(ends.0);
    }
  }

  lemma {:induction false} PairChars(s: string, lo: int, hi: int)
    requires Pair(s, lo, hi)
    ensures '-' in s && '/' !in s && ',' !in s && !IsDigits(s)
  {
    var a, b :| IsDigits(a) && NatOf(a) == lo && Numeral(b, hi) && s == a + "-" + b;
    DigitsPlain(a);
    NumeralChars(b, hi);
    assert s[|a|] == '-';
  }

  lemma {:induction false} StretchChars(s: string, key: Key, lo: int, hi: int)
    requires Stretch(s, key, lo, hi)
    ensures '/' !in s && ',' !in s
  {
    if IsDigits(s) {
      DigitsPlain(s);
    } else if s != "*" {
      PairChars(s, lo, hi);
    }
  }

  /** The ends that are read before a slash. */
  function ParseStretch(s: string, key: Key): Result<(int, int), FieldError> {
    if s == "*" then Ok(Bounds(key))
    else if '-' in s then ParsePair(s)
    else match ParseNumber(s) { case Ok(n) => Ok((n, Bounds(key).1)) case Err(e) => Err(e) }
  }

  lemma {:induction false} StretchExactly(s: string, key: Key, lo: int, hi: int)
    ensures ParseStretch(s, key) == Ok((lo, hi)) <==> Stretch(s, key, lo, hi)
  {
    if s == "*" {
      assert !Pair(s, lo, hi) by {
        if Pair(s, lo, hi) {
          PairChars(s, lo, hi);
        }
      }
    } else if '-' in s {
      PairExactly(s, lo, hi);
      assert !IsDigits(s) by {
        if IsDigits(s) {
          DigitsPlain(s);
        }
      }
    } else {
      NumeralExactly(s, lo);
      assert !Pair(s, lo, hi) by {
        if Pair(s, lo, hi) {
          PairChars(s, lo, hi);
        }
      }
    }
  }

  /** A part with a slash. */
  ghost predicate SlashMeans(part: string, key: Key, lo: int, hi: int, step: int) {
    exists s, n :: part == s + "/" + n && Stretch(s, key, lo, hi) && Numeral(n, step) && step != 0
  }

  lemma {:induction false} SlashPieces(part: string, s: string, n: string, key: Key, lo: int, hi: int)
    requires part == s + "/" + n && Stretch(s, key, lo, hi)
    ensures Partition(part, '/') == (s, n)
  {
    StretchChars(s, key, lo, hi);
    PartitionOf(s, '/', n);
  }

  lemma {:induction false} SlashReads(part: string, s: string, n: string, key: Key, lo: int, hi: int, step: int)
    requires '/' in part && Partition(part, '/') == (s, n)
    ensures ParseElement(part, key) == Ok(Element(lo, hi, step)) <==>
      ParseStretch(s, key) == Ok((lo, hi)) && ParseInt(n) == Some(step) && step != 0
  {
  }

  lemma {:induction false} SlashExactly(part: string, key: Key, lo: int, hi: int, step: int)
    requires '/' in part
    ensures ParseElement(part, key) == Ok(Element(lo, hi, step)) <==> SlashMeans(part, key, lo, hi, step)
  {
    var s, n := Partition(part, '/').0, Partition(part, '/').1;
    PartitionFound(part, '/');
    assert part == s + "/" + n;
    SlashReads(part, s, n, key, lo, hi, step);
    NumeralExactly(n, step);
    StretchExactly(s, key, lo, hi);
    if t, m :| part == t + "/" + m && Stretch(t, key, lo, hi) && Numeral(m, step) && step != 0 {
      SlashPieces(part, t, m, key, lo, hi);
    }
  }

  /** A part is read as these ends and this step exactly when its text says so. */
  lemma {:induction false} PartExactly(part: string, key: Key, lo: int, hi: int, step: int)
    ensures ParseElement(part, key) == Ok(Element(lo, hi, step)) <==> PartMeans(part, key, lo, hi, step)
  {
    if '/' in part {
      SlashExactly(part, key, lo, hi, step);
      NoSlash(part, lo, hi);
    } else if '-' in part {
      PairExactly(part, lo, hi);
      PlainOnly(part, key, lo, hi, step);
    } else {
      NumeralExactly(part, lo);
      PlainOnly(part, key, lo, hi, step);
    }
  }

  lemma {:induction false} NoSlash(part: string, lo: int, hi: int)
    requires '/' in part
    ensures !IsDigits(part) && !Pair(part, lo, hi)
  {
    if IsDigits(part) {
      DigitsPlain(part);
    }
    if Pair(part, lo, hi) {
      PairChars(part, lo, hi);
    }
  }

  lemma {:induction false} PlainOnly(part: string, key: Key, lo: int, hi: int, step: int)
    requires '/' !in part
    ensures !SlashMeans(part, key, lo, hi, step)
    ensures '-' in part ==> !IsDigits(part)
    ensures '-' !in part ==> !Pair(part, lo, hi)
  {
    forall s: string, n: string ensures part != s + "/" + n {
      assert (s + "/" + n)[|s|] == '/';
    }
    if IsDigits(part) {
      DigitsPlain(part);
    }
    if Pair(part, lo, hi) {
      PairChars(part, lo, hi);
    }
  }

  lemma {:induction false} CountsExactly(lo: int, hi: int, step: int, v: int)
    requires step != 0
    ensures ElementDenotes(Element(lo, hi, step), v) <==> Counts(lo, hi, step, v)
  {
    RangeMeans(Element(lo, hi, step), v);
  }

  lemma {:induction false} ReadsExactly(part: string, key: Key)
    ensures ParseElement(part, key).Ok? <==> PartReads(part, key)
  {
    if ParseElement(part, key).Ok? {
      var e := ParseElement(part, key).value;
      PartExactly(part, key, e.start, e.end, e.step);
    }
    if lo, hi, step :| PartMeans(part, key, lo, hi, step) {
      PartExactly(part, key, lo, hi, step);
    }
  }

  // ---- the meaning of a field

  // ---- why a part does not read

  /** The part holds this text. */
  ghost predicate Holds(part: string, text: string) {
    exists i, j :: 0 <= i <= j <= |part| && part[i..j] == text
  }

  ghost predicate IsNumeral(s: string) {
    exists x :: Numeral(s, x)
  }

  /** A stretch with the step 0. */
  ghost predicate StepsByZero(part: string, key: Key) {
    exists s, n, lo, hi :: part == s + "/" + n && Stretch(s, key, lo, hi) && Numeral(n, 0)
  }

  /** The part steps by 0, or holds a piece that is no number. */
  ghost predicate PartFails(part: string, key: Key, e: FieldError) {
    match e
    case ZeroStep(text) => StepsByZero(part, key) && text == part
    case BadNumber(text) => !StepsByZero(part, key) && Holds(part, text) && !IsNumeral(text)
    case BadFieldCount(_) => false
  }

  lemma {:induction false} ZeroFails(part: string, key: Key)
    requires StepsByZero(part, key)
    ensures ParseElement(part, key) == Err(ZeroStep(part))
  {
    var s, n, lo, hi :| part == s + "/" + n && Stretch(s, key, lo, hi) && Numeral(n, 0);
    SlashPieces(part, s, n, key, lo, hi);
    assert part[|s|] == '/';
    NumeralExactly(n, 0);
    StretchExactly(s, key, lo, hi);
    assert ParseStretch(s, key) == Ok((lo, hi));
  }

  lemma {:induction false} NumberFails(s: string)
    ensures ParseNumber(s) == Err(BadNumber(s)) <==> !IsNumeral(s)
  {
    match ParseInt(s)
    case Some(x) => NumeralExactly(s, x);
    case None =>
      forall x ensures !Numeral(s, x) {
        NumeralExactly(s, x);
      }
  }

  lemma {:induction false} PiecesHeld(s: string, c: char)
    requires c in s
    ensures Holds(s, Partition(s, c).0) && Holds(s, Partition(s, c).1)
  {
    var pieces := Partition(s, c);
    PartitionFound(s, c);
    assert s[0..|pieces.0|] == pieces.0 && s[|pieces.0| + 1..|s|] == pieces.1;
  }

  lemma {:induction false} PairFails(s: string)
    requires '-' in s && ParsePair(s).Err?
    ensures var e := ParsePair(s).error; e.BadNumber? && Holds(s, e.text) && !IsNumeral(e.text)
  {
    var ends := Partition(s, '-');
    NumberFails(ends.0);
    NumberFails(ends.1);
    PiecesHeld(s, '-');
  }

  lemma {:induction false} HoldsWithin(part: string, piece: string, text: string)
    requires Holds(part, piece) && Holds(piece, text)
    ensures Holds(part, text)
  {
    var i, j :| 0 <= i <= j <= |part| && part[i..j] == piece;
    var k, l :| 0 <= k <= l <= |piece| && piece[k..l] == text;
    forall x | 0 <= x < |text| ensures part[i + k..i + l][x] == text[x] {
      assert text[x] == piece[k + x] == part[i + k + x];
    }
    assert part[i + k..i + l] == text;
  }

  lemma {:induction false} StretchFails(s: string, key: Key)
    requires ParseStretch(s, key).Err?
    ensures var e := ParseStretch(s, key).error; e.BadNumber? && Holds(s, e.text) && !IsNumeral(e.text)
  {
    if '-' in s {
      PairFails(s);
    } else {
      NumberFails(s);
      assert s[0..|s|] == s;
    }
  }

  lemma {:induction false} SlashError(part: string, key: Key)
    requires '/' in part && ParseElement(part, key).Err?
    ensures var pieces := Partition(part, '/');
      ParseElement(part, key).error ==
        if ParseNumber(pieces.1).Err? then BadNumber(pieces.1)
        else if ParseStretch(pieces.0, key).Err? then ParseStretch(pieces.0, key).error
        else ZeroStep(part)
    ensures ParseElement(part, key).error.ZeroStep? ==> ParseNumber(Partition(part, '/').1) == Ok(0)
  {
  }

  lemma {:induction false} SlashHolds(part: string, key: Key, text: string)
    requires '/' in part && ParseElement(part, key) == Err(BadNumber(text))
    ensures Holds(part, text) && !IsNumeral(text)
  {
    var pieces := Partition(part, '/');
    SlashError(part, key);
    PiecesHeld(part, '/');
    if ParseNumber(pieces.1).Err? {
      NumberFails(pieces.1);
    } else {
      StretchFails(pieces.0, key);
      HoldsWithin(part, pieces.0, text);
    }
  }

  lemma {:induction false} SlashZero(part: string, key: Key)
    requires '/' in part && ParseElement(part, key).Err? && ParseElement(part, key).error.ZeroStep?
    ensures StepsByZero(part, key)
  {
    var pieces := Partition(part, '/');
    SlashError(part, key);
    PartitionFound(part, '/');
    var ends := ParseStretch(pieces.0, key).value;
    StretchExactly(pieces.0, key, ends.0, ends.1);
    NumeralExactly(pieces.1, 0);
  }

  /** Why a part does not read: the error is never about anything else. */
  lemma {:induction false} PartFailsExactly(part: string, key: Key)
    requires ParseElement(part, key).Err?
    ensures PartFails(part, key, ParseElement(part, key).error)
  {
    if StepsByZero(part, key) {
      ZeroFails(part, key);
    } else if '/' in part {
      match ParseElement(part, key).error
      case BadNumber(text) => SlashHolds(part, key, text);
      case ZeroStep(_) => SlashZero(part, key);
      case BadFieldCount(_) => SlashError(part, key);
    } else if '-' in part {
      PairFails(part);
    } else {
      NumberFails(part);
      assert part[0..|part|] == part;
    }
  }

  lemma {:induction false} ParsedAt(parts: seq<string>, key: Key, i: nat)
    requires ParsedElements(parts, key).Ok? && i < |parts|
    ensures |ParsedElements(parts, key).value| == |parts|
    ensures ParseElement(parts[i], key) == Ok(ParsedElements(parts, key).value[i])
  {
    var init := parts[..|parts| - 1];
    if i < |init| {
      ParsedAt(init, key, i);
    } else if init != [] {
      ParsedAt(init, key, 0);
    }
  }

  lemma {:induction false} PartDenotesExactly(part: string, key: Key, v: int)
    requires ParseElement(part, key).Ok?
    ensures PartDenotes(part, key, v) <==> ElementDenotes(ParseElement(part, key).value, v)
  {
    var e := ParseElement(part, key).value;
    PartExactly(part, key, e.start, e.end, e.step);
    assert e.step != 0;
    CountsExactly(e.start, e.end, e.step, v);
    if lo, hi, step :| PartMeans(part, key, lo, hi, step) && step != 0 && Counts(lo, hi, step, v) {
      PartExactly(part, key, lo, hi, step);
    }
  }

  /** The text of every part has a meaning. */
  ghost predicate PartsRead(parts: seq<string>, key: Key) {
    forall i :: 0 <= i < |parts| ==> PartReads(parts[i], key)
  }

  ghost predicate PartsDenote(parts: seq<string>, key: Key, v: int) {
    exists i :: 0 <= i < |parts| && PartDenotes(parts[i], key, v)
  }

  lemma {:induction false} PartsReadExactly(parts: seq<string>, key: Key)
    ensures PartsRead(parts, key) <==> forall i :: 0 <= i < |parts| ==> ParseElement(parts[i], key).Ok?
  {
    forall i | 0 <= i < |parts| ensures ParseElement(parts[i], key).Ok? <==> PartReads(parts[i], key) {
      ReadsExactly(parts[i], key);
    }
  }

  /** A field can be read if and only if it is `*` or the text of each of its parts has a meaning. */
  lemma {:induction false} FieldReadsText(field: string, key: Key)
    ensures FieldReads(field, key) <==> field == "*" || PartsRead(SplitOn(field, ','), key)
  {
    PartsReadExactly(SplitOn(field, ','), key);
  }

  lemma {:induction false} PartsDenoteExactly(parts: seq<string>, key: Key, elements: seq<Element>, v: int)
    requires ParsedElements(parts, key) == Ok(elements)
    ensures PartsDenote(parts, key, v) <==> exists i :: 0 <= i < |elements| && ElementDenotes(elements[i], v)
  {
    assert parts == [] ==> elements == [];
    forall i | 0 <= i < |parts|
      ensures |elements| == |parts| && (PartDenotes(parts[i], key, v) <==> ElementDenotes(elements[i], v))
    {
      ParsedAt(parts, key, i);
      PartDenotesExactly(parts[i], key, v);
    }
    if parts != [] {
      ParsedAt(parts, key, 0);
    }
  }

  /** A field that can be read denotes a number if and only if one of its parts does. */
  lemma {:induction false} FieldDenotesText(field: string, key: Key, v: int)
    requires PartsRead(SplitOn(field, ','), key)
    ensures FieldDenotes(field, key, v) <==> PartsDenote(SplitOn(field, ','), key, v)
  {
    var parts := SplitOn(field, ',');
    PartsReadExactly(parts, key);
    ParsedExactly(parts, key);
    PartsDenoteExactly(parts, key, ParsedElements(parts, key).value, v);
  }

  // ---- the forms one by one

  lemma {:induction false} OnePart(text: string, key: Key, lo: int, hi: int, step: int, v: int)
    requires ',' !in text && PartMeans(text, key, lo, hi, step) && step != 0
    ensures FieldReads(text, key) && (FieldDenotes(text, key, v) <==> Counts(lo, hi, step, v))
  {
    SplitPlain(text, ',');
    assert PartReads(text, key);
    FieldReadsText(text, key);
    FieldDenotesText(text, key, v);
    if l, h, st :| PartMeans(text, key, l, h, st) && st != 0 && Counts(l, h, st, v) {
      PartExactly(text, key, l, h, st);
      PartExactly(text, key, lo, hi, step);
    }
    assert Counts(lo, hi, step, v) ==> PartDenotes(SplitOn(text, ',')[0], key, v);
  }

  /** `a` denotes a. */
  lemma {:induction false} NumberField(a: string, key: Key, v: int)
    requires IsDigits(a)
    ensures FieldReads(a, key) && (FieldDenotes(a, key, v) <==> v == NatOf(a))
  {
    DigitsPlain(a);
    OnePart(a, key, NatOf(a), NatOf(a), 1, v);
  }

  lemma {:induction false} PairOf(a: string, b: string)
    requires IsDigits(a) && IsDigits(b)
    ensures Pair(a + "-" + b, NatOf(a), NatOf(b)) && ',' !in a + "-" + b
  {
    assert Numeral(b, NatOf(b));
    PairChars(a + "-" + b, NatOf(a), NatOf(b));
  }

  /** `a-b` denotes every number from a to b. */
  lemma {:induction false} RangeField(a: string, b: string, key: Key, v: int)
    requires IsDigits(a) && IsDigits(b)
    ensures FieldReads(a + "-" + b, key) && (FieldDenotes(a + "-" + b, key, v) <==> NatOf(a) <= v <= NatOf(b))
  {
    PairOf(a, b);
    OnePart(a + "-" + b, key, NatOf(a), NatOf(b), 1, v);
  }

  lemma {:induction false} SteppedField(s: string, n: string, key: Key, lo: int, hi: int, v: int)
    requires Stretch(s, key, lo, hi) && IsDigits(n) && NatOf(n) > 0
    ensures var field := s + "/" + n;
      && FieldReads(field, key)
      && (FieldDenotes(field, key, v) <==> lo <= v <= hi && (v - lo) % NatOf(n) == 0)
  {
    StretchChars(s, key, lo, hi);
    DigitsPlain(n);
    assert Numeral(n, NatOf(n));
    assert SlashMeans(s + "/" + n, key, lo, hi, NatOf(n));
    OnePart(s + "/" + n, key, lo, hi, NatOf(n), v);
  }

  /** `*` over n denotes every n-th number of the field's own range, counted from its first. */
  lemma {:induction false} StepField(n: string, v: int)
    requires IsDigits(n) && NatOf(n) > 0
    ensures FieldDenotes("*/" + n, Minute, v) <==> 0 <= v <= 59 && v % NatOf(n) == 0
    ensures FieldDenotes("*/" + n, Hour, v) <==> 0 <= v <= 23 && v % NatOf(n) == 0
    ensures FieldDenotes("*/" + n, Day, v) <==> 1 <= v <= 31 && (v - 1) % NatOf(n) == 0
    ensures FieldDenotes("*/" + n, Month, v) <==> 1 <= v <= 12 && (v - 1) % NatOf(n) == 0
    ensures FieldDenotes("*/" + n, Weekday, v) <==> 0 <= v <= 7 && v % NatOf(n) == 0
    ensures forall key :: FieldReads("*/" + n, key)
  {
    assert "*" + "/" + n == "*/" + n;
    BoundsExactly();
    forall key ensures FieldReads("*/" + n, key) {
      SteppedField("*", n, key, Bounds(key).0, Bounds(key).1, v);
    }
    SteppedField("*", n, Minute, 0, 59, v);
    SteppedField("*", n, Hour, 0, 23, v);
    SteppedField("*", n, Day, 1, 31, v);
    SteppedField("*", n, Month, 1, 12, v);
    SteppedField("*", n, Weekday, 0, 7, v);
  }

  /** `a/n` denotes every n-th number from a to the end of the field's range. */
  lemma {:induction false} OpenStepField(a: string, n: string, v: int)
    requires IsDigits(a) && IsDigits(n) && NatOf(n) > 0
    ensures FieldDenotes(a + "/" + n, Minute, v) <==> NatOf(a) <= v <= 59 && (v - NatOf(a)) % NatOf(n) == 0
    ensures FieldDenotes(a + "/" + n, Hour, v) <==> NatOf(a) <= v <= 23 && (v - NatOf(a)) % NatOf(n) == 0
    ensures FieldDenotes(a + "/" + n, Day, v) <==> NatOf(a) <= v <= 31 && (v - NatOf(a)) % NatOf(n) == 0
    ensures FieldDenotes(a + "/" + n, Month, v) <==> NatOf(a) <= v <= 12 && (v - NatOf(a)) % NatOf(n) == 0
    ensures FieldDenotes(a + "/" + n, Weekday, v) <==> NatOf(a) <= v <= 7 && (v - NatOf(a)) % NatOf(n) == 0
    ensures forall key :: FieldReads(a + "/" + n, key)
  {
    BoundsExactly();
    forall key ensures FieldReads(a + "/" + n, key) {
      SteppedField(a, n, key, NatOf(a), Bounds(key).1, v);
    }
    SteppedField(a, n, Minute, NatOf(a), 59, v);
    SteppedField(a, n, Hour, NatOf(a), 23, v);
    SteppedField(a, n, Day, NatOf(a), 31, v);
    SteppedField(a, n, Month, NatOf(a), 12, v);
    SteppedField(a, n, Weekday, NatOf(a), 7, v);
  }

  /** `a-b/n` denotes every n-th number from a to b. */
  lemma {:induction false} RangeStepField(a: string, b: string, n: string, key: Key, v: int)
    requires IsDigits(a) && IsDigits(b) && IsDigits(n) && NatOf(n) > 0
    ensures var field := a + "-" + b + "/" + n;
      && FieldReads(field, key)
      && (FieldDenotes(field, key, v) <==> NatOf(a) <= v <= NatOf(b) && (v - NatOf(a)) % NatOf(n) == 0)
  {
    PairOf(a, b);
    SteppedField(a + "-" + b, n, key, NatOf(a), NatOf(b), v);
  }

  lemma {:induction false} SplitList(x: string, y: string)
    ensures SplitOn(x + "," + y, ',') == SplitOn(x, ',') + SplitOn(y, ',')
  {
    var s := x + "," + y;
    if x == "" {
      assert s == "," + y && s[1..] == y;
    } else {
      assert x == [x[0]] + x[1..];
      assert s[0] == x[0] && s[1..] == x[1..] + "," + y;
      SplitList(x[1..], y);
    }
  }

  /** A list denotes what its parts denote together. `*` may stand alone but not in a list. */
  lemma {:induction false} ListField(x: string, y: string, key: Key, v: int)
    requires FieldReads(x, key) && FieldReads(y, key) && x != "*" && y != "*"
    ensures FieldReads(x + "," + y, key)
    ensures FieldDenotes(x + "," + y, key, v) <==> FieldDenotes(x, key, v) || FieldDenotes(y, key, v)
  {
    var a, b, c := SplitOn(x, ','), SplitOn(y, ','), SplitOn(x + "," + y, ',');
    SplitList(x, y);
    FieldReadsText(x, key);
    FieldReadsText(y, key);
    FieldReadsText(x + "," + y, key);
    FieldDenotesText(x, key, v);
    FieldDenotesText(y, key, v);
    FieldDenotesText(x + "," + y, key, v);
    assert forall i :: 0 <= i < |a| ==> c[i] == a[i];
    assert forall i :: 0 <= i < |b| ==> c[|a| + i] == b[i];
  }

  // ---- whole schedules

  /** `every` values in seconds. */
  lemma {:induction false} EverySeconds(n: string)
    requires IsDigits(n) && n[0] != '0'
    ensures EveryValue(n + "s") && ParseEverySeconds(n + "s") == NatOf(n)
    ensures EveryValue(n + "m") && ParseEverySeconds(n + "m") == NatOf(n) * 60
    ensures EveryValue(n + "h") && ParseEverySeconds(n + "h") == NatOf(n) * 60 * 60
    ensures EveryValue(n + "d") && ParseEverySeconds(n + "d") == NatOf(n) * 24 * 60 * 60
    ensures EveryValue(n + "w") && ParseEverySeconds(n + "w") == NatOf(n) * 7 * 24 * 60 * 60
  {
    assert (n + "s")[..|n|] == n && (n + "m")[..|n|] == n && (n + "h")[..|n|] == n;
    assert (n + "d")[..|n|] == n && (n + "w")[..|n|] == n;
  }
}
