/** The parts of Python's `str` that the crontab code relies on. */
module Text {

  /** `str.isspace`, which is also what `\s` and a bare `split()` mean. */
  predicate IsSpace(c: char) {
    || '\t' <= c <= '\r' || '\U{1c}' <= c <= ' ' || c == '\U{85}' || c == '\U{a0}'
    || c == '\U{1680}' || '\U{2000}' <= c <= '\U{200a}' || c == '\U{2028}' || c == '\U{2029}'
    || c == '\U{202f}' || c == '\U{205f}' || c == '\U{3000}'
  }

  /** The characters at which `str.splitlines` breaks; all of them are white space. */
  predicate IsBreak(c: char) {
    '\n' <= c <= '\r' || '\U{1c}' <= c <= '\U{1e}' || c == '\U{85}' || c == '\U{2028}' || c == '\U{2029}'
  }

  predicate OneLine(s: string) {
    forall i :: 0 <= i < |s| ==> !IsBreak(s[i])
  }

  predicate OneLineEach(lines: seq<string>) {
    forall i :: 0 <= i < |lines| ==> OneLine(lines[i])
  }

  /** A nonempty run of characters without white space: what `\S+` matches. */
  predicate IsToken(s: string) {
    s != "" && forall i :: 0 <= i < |s| ==> !IsSpace(s[i])
  }

  // ---- line splitting and joining

  /** Number of characters before the first break. */
  function LineLength(s: string): (n: nat)
    ensures n <= |s|
    ensures forall i :: 0 <= i < n ==> !IsBreak(s[i])
    ensures n < |s| ==> IsBreak(s[n])
  {
    if s == "" || IsBreak(s[0]) then 0 else 1 + LineLength(s[1..])
  }

  /** `s.splitlines()`: a `\r\n` pair is one break, and a final break opens no further line. */
  function SplitLines(s: string): (lines: seq<string>)
    ensures OneLineEach(lines)
    decreases |s|
  {
    if s == "" then []
    else
      var n := LineLength(s);
      if n == |s| then [s]
      else
        var width := if s[n] == '\r' && n + 1 < |s| && s[n + 1] == '\n' then 2 else 1;
        [s[..n]] + SplitLines(s[n + width..])
  }

  /** `"\n".join(lines)`. */
  function JoinLines(lines: seq<string>): string {
    if lines == [] then ""
    else if |lines| == 1 then lines[0]
    else lines[0] + "\n" + JoinLines(lines[1..])
  }

  lemma {:induction false} SplitFirstLine(line: string, rest: string)
    requires OneLine(line)
    ensures SplitLines(line + "\n" + rest) == [line] + SplitLines(rest)
  {
    var s := line + "\n" + rest;
    assert s[|line|] == '\n' && IsBreak(s[|line|]);
    assert forall i :: 0 <= i < |line| ==> s[i] == line[i];
    assert LineLength(s) == |line|;
    assert s[..|line|] == line && s[|line| + 1..] == rest;
  }

  lemma {:induction false} JoinCons(first: string, others: seq<string>)
    requires others != []
    ensures JoinLines([first] + others) == first + "\n" + JoinLines(others)
  {
    assert ([first] + others)[1..] == others;
  }

  /** Lines written with a final newline are read back unchanged. */
  lemma {:induction false} SplitJoined(lines: seq<string>)
    requires OneLineEach(lines) && lines != []
    ensures SplitLines(JoinLines(lines) + "\n") == lines
  {
    var first, others := lines[0], lines[1..];
    assert lines == [first] + others;
    if others == [] {
      SplitFirstLine(first, "");
      assert first + "\n" + "" == JoinLines(lines) + "\n";
    } else {
      JoinCons(first, others);
      SplitJoined(others);
      SplitFirstLine(first, JoinLines(others) + "\n");
      Regroup(first + "\n", JoinLines(others), "\n");
    }
  }

  /** Without a final newline this needs a last line that shows. */
  lemma {:induction false} SplitJoinedOpen(lines: seq<string>)
    requires OneLineEach(lines) && lines != [] && lines[|lines| - 1] != ""
    ensures SplitLines(JoinLines(lines)) == lines
  {
    if |lines| == 1 {
      assert LineLength(lines[0]) == |lines[0]|;
      assert lines == [lines[0]];
    } else {
      SplitJoinedOpen(lines[1..]);
      SplitFirstLine(lines[0], JoinLines(lines[1..]));
      assert lines == [lines[0]] + lines[1..];
    }
  }

  lemma {:induction false} JoinSnoc(lines: seq<string>, line: string)
    ensures JoinLines(lines + [line]) == if lines == [] then line else JoinLines(lines) + "\n" + line
  {
    if lines == [] {
    } else if |lines| == 1 {
      assert (lines + [line])[1..] == [line];
    } else {
      JoinSnoc(lines[1..], line);
      assert (lines + [line])[1..] == lines[1..] + [line];
      assert JoinLines(lines + [line]) == lines[0] + "\n" + (JoinLines(lines[1..]) + "\n" + line);
      assert JoinLines(lines) + "\n" + line == (lines[0] + "\n" + JoinLines(lines[1..])) + "\n" + line;
    }
  }

  // ---- stripping

  /** `s.rstrip()`. */
  function RStrip(s: string): (r: string)
    ensures r <= s
    ensures r != "" ==> !IsSpace(r[|r| - 1])
  {
    if s != "" && IsSpace(s[|s| - 1]) then RStrip(s[..|s| - 1]) else s
  }

  /** `s.rstrip("\n")`. */
  function RStripNewlines(s: string): string {
    if s != "" && s[|s| - 1] == '\n' then RStripNewlines(s[..|s| - 1]) else s
  }

  lemma {:induction false} RStripConcat(a: string, b: string)
    ensures RStrip(a + b) == if RStrip(b) == "" then RStrip(a) else a + RStrip(b)
  {
    if b == "" {
      assert a + b == a;
    } else if IsSpace(b[|b| - 1]) {
      assert (a + b)[..|a + b| - 1] == a + b[..|b| - 1];
      RStripConcat(a, b[..|b| - 1]);
    }
  }

  lemma {:induction false} RStripNoSpace(s: string)
    requires s == "" || !IsSpace(s[|s| - 1])
    ensures RStrip(s) == s
  {
  }

  lemma {:induction false} RStripIdempotent(s: string)
    ensures RStrip(RStrip(s)) == RStrip(s)
  {
    RStripNoSpace(RStrip(s));
  }

  /** What `rstrip` does to joined lines, line by line. */
  function TrimLines(lines: seq<string>): (r: seq<string>)
    ensures |r| <= |lines|
    ensures OneLineEach(lines) ==> OneLineEach(r)
    ensures r != [] ==> r[|r| - 1] != "" && RStrip(r[|r| - 1]) == r[|r| - 1]
  {
    if lines == [] then []
    else
      var last := RStrip(lines[|lines| - 1]);
      RStripIdempotent(lines[|lines| - 1]);
      if last == "" then TrimLines(lines[..|lines| - 1]) else lines[..|lines| - 1] + [last]
  }

  lemma {:induction false} RStripJoined(lines: seq<string>)
    ensures RStrip(JoinLines(lines)) == JoinLines(TrimLines(lines))
  {
    if lines != [] {
      var init, last := lines[..|lines| - 1], lines[|lines| - 1];
      assert lines == init + [last];
      JoinSnoc(init, last);
      JoinSnoc(init, RStrip(last));
      RStripJoined(init);
      if init != [] {
        RStripConcat(JoinLines(init) + "\n", last);
        RStripConcat(JoinLines(init), "\n");
        assert RStrip("\n") == "" by { assert "\n"[..0] == ""; }
      }
    }
  }

  lemma {:induction false} TrimConcat(a: seq<string>, b: seq<string>)
    ensures TrimLines(a + b) == if TrimLines(b) == [] then TrimLines(a) else a + TrimLines(b)
  {
    if b == [] {
      assert a + b == a;
    } else {
      var init := b[..|b| - 1];
      assert a + b == (a + init) + [b[|b| - 1]];
      assert (a + b)[..|a + b| - 1] == a + init;
      TrimConcat(a, init);
      assert a + (init + [RStrip(b[|b| - 1])]) == (a + init) + [RStrip(b[|b| - 1])];
    }
  }

  lemma {:induction false} TrimUnchanged(lines: seq<string>)
    requires lines != [] && lines[|lines| - 1] != "" && !IsSpace(lines[|lines| - 1][|lines[|lines| - 1]| - 1])
    ensures TrimLines(lines) == lines
  {
    RStripNoSpace(lines[|lines| - 1]);
    assert lines == lines[..|lines| - 1] + [lines[|lines| - 1]];
  }

  lemma {:induction false} TrimIdempotent(lines: seq<string>)
    ensures TrimLines(TrimLines(lines)) == TrimLines(lines)
  {
    var t := TrimLines(lines);
    if t != [] {
      assert t == t[..|t| - 1] + [t[|t| - 1]];
    }
  }

  // ---- fields

  /** `s.lstrip()`. */
  function SkipSpaces(s: string): (r: string)
    ensures |r| <= |s|
    ensures r != "" ==> !IsSpace(r[0])
  {
    if s != "" && IsSpace(s[0]) then SkipSpaces(s[1..]) else s
  }

  /** The longest prefix without white space. */
  function Word(s: string): (w: string)
    ensures w <= s
    ensures forall i :: 0 <= i < |w| ==> !IsSpace(w[i])
    ensures |w| < |s| ==> IsSpace(s[|w|])
  {
    if s == "" || IsSpace(s[0]) then "" else [s[0]] + Word(s[1..])
  }

  /** `s.split(maxsplit=limit)`: the rest after `limit` fields keeps its trailing blanks. */
  function SplitFields(s: string, limit: nat): seq<string>
    decreases |s|
  {
    var t := SkipSpaces(s);
    if t == "" then []
    else if limit == 0 then [t]
    else
      var w := Word(t);
      [w] + SplitFields(t[|w|..], limit - 1)
  }

  /** `s.split()`. */
  function Fields(s: string): (fields: seq<string>)
    ensures forall i :: 0 <= i < |fields| ==> IsToken(fields[i])
    decreases |s|
  {
    var t := SkipSpaces(s);
    if t == "" then []
    else
      var w := Word(t);
      [w] + Fields(t[|w|..])
  }

  lemma {:induction false} WordThenBreak(w: string, rest: string)
    requires IsToken(w)
    requires rest == "" || IsSpace(rest[0])
    ensures Word(w + rest) == w
    ensures SkipSpaces(w + rest) == w + rest
    ensures (w + rest)[|w|..] == rest
  {
    var s := w + rest;
    assert forall i :: 0 <= i < |w| ==> s[i] == w[i];
    assert rest != "" ==> s[|w|] == rest[0];
    assert |Word(s)| == |w|;
    assert Word(s) == s[..|w|] == w;
  }

  lemma {:induction false} FieldsCons(w: string, rest: string)
    requires IsToken(w)
    requires rest == "" || IsSpace(rest[0])
    ensures Fields(w + rest) == [w] + Fields(rest)
  {
    WordThenBreak(w, rest);
  }

  lemma {:induction false} SkipOneSpace(c: char, s: string)
    requires IsSpace(c)
    ensures Fields([c] + s) == Fields(s)
    ensures SkipSpaces([c] + s) == SkipSpaces(s)
  {
    assert ([c] + s)[1..] == s;
  }

  lemma {:induction false} SkipSpacesConcat(a: string, b: string)
    ensures SkipSpaces(a + b) == if SkipSpaces(a) == "" then SkipSpaces(b) else SkipSpaces(a) + b
  {
    if a == "" {
      assert a + b == b;
    } else if IsSpace(a[0]) {
      assert (a + b)[1..] == a[1..] + b;
      SkipSpacesConcat(a[1..], b);
    }
  }

  lemma {:induction false} TakeWord(s: string, w: string, rest: string, limit: nat)
    requires SkipSpaces(s) == w + rest && IsToken(w)
    requires rest == "" || IsSpace(rest[0])
    ensures Fields(s) == [w] + Fields(rest)
    ensures SplitFields(s, limit + 1) == [w] + SplitFields(rest, limit)
  {
    WordThenBreak(w, rest);
  }

  lemma {:induction false} Regroup<T>(a: seq<T>, b: seq<T>, c: seq<T>)
    ensures a + b + c == a + (b + c)
  {
  }

  lemma {:induction false} SplitRemainder(s: string, tail: string)
    requires SkipSpaces(s) == tail != ""
    ensures SplitFields(s, 0) == [tail]
  {
  }

  /** Splitting `schedule command` at the schedule's own number of fields gives the command back whole. */
  lemma {:induction false} SplitFieldsThenTail(s: string, tail: string, fields: seq<string>)
    requires tail != "" && !IsSpace(tail[0])
    requires fields == Fields(s)
    ensures SplitFields(s + (" " + tail), |fields|) == fields + [tail]
    decreases |s|
  {
    var t := SkipSpaces(s);
    var more := " " + tail;
    SkipSpacesConcat(s, more);
    if t == "" {
      SkipOneSpace(' ', tail);
      SplitRemainder(s + more, tail);
    } else {
      var w := Word(t);
      var rest := t[|w|..];
      var others := Fields(rest);
      assert t == w + rest;
      assert t + more == w + (rest + more);
      TakeWord(s, w, rest, 0);
      SplitFieldsThenTail(rest, tail, others);
      TakeWord(s + more, w, rest + more, |others|);
      Regroup([w], others, [tail]);
    }
  }

  /** `" ".join(fields)`. */
  function JoinBlanks(fields: seq<string>): string {
    if fields == [] then ""
    else if |fields| == 1 then fields[0]
    else fields[0] + " " + JoinBlanks(fields[1..])
  }

  /** Joining with single blanks keeps the fields: text is read back equal up to runs of blanks. */
  lemma {:induction false} FieldsOfJoin(fields: seq<string>)
    requires forall i :: 0 <= i < |fields| ==> IsToken(fields[i])
    ensures Fields(JoinBlanks(fields)) == fields
  {
    if fields == [] {
    } else if |fields| == 1 {
      FieldsCons(fields[0], "");
      assert fields[0] + "" == fields[0];
    } else {
      FieldsOfJoin(fields[1..]);
      var rest := JoinBlanks(fields[1..]);
      FieldsCons(fields[0], " " + rest);
      SkipOneSpace(' ', rest);
      assert fields[0] + " " + rest == fields[0] + (" " + rest);
    }
  }
}
