/**
  Breaking a description into lines. A line takes as many graphemes as fit and then runs on through the
  next white space, so a word is never split and nothing is lost.
*/
module LineBreaking {
  import opened Options
  import opened Sequences

  /** A text is a sequence of graphemes, each of them a non-empty string. */
  type Text = seq<string>

  /** The number of bytes of a character in UTF-8. */
  function Utf8Length(c: char): nat {
    if c as int < 0x80 then 1
    else if c as int < 0x800 then 2
    else if c as int < 0x10000 then 3
    else 4
  }

  /** The bytes of a character in UTF-8: six bits in every byte but the first. */
  function Utf8(c: char): seq<int> {
    var n := c as int;
    var low, middle, high := n / 64, n / 64 / 64, n / 64 / 64 / 64;
    if n < 0x80 then [n]
    else if n < 0x800 then [0xC0 + low, 0x80 + n % 64]
    else if n < 0x10000 then [0xE0 + middle, 0x80 + low % 64, 0x80 + n % 64]
    else [0xF0 + high, 0x80 + middle % 64, 0x80 + low % 64, 0x80 + n % 64]
  }

  /** The value of the bytes of one character: the marks of the lead and the continuation bytes taken off. */
  function Decoded(bytes: seq<int>): int {
    if |bytes| == 1 then bytes[0]
    else if |bytes| == 2 then (bytes[0] - 0xC0) * 64 + (bytes[1] - 0x80)
    else if |bytes| == 3 then ((bytes[0] - 0xE0) * 64 + (bytes[1] - 0x80)) * 64 + (bytes[2] - 0x80)
    else if |bytes| == 4 then
      (((bytes[0] - 0xF0) * 64 + (bytes[1] - 0x80)) * 64 + (bytes[2] - 0x80)) * 64 + (bytes[3] - 0x80)
    else -1
  }

  /** The encoding gives the character back. */
  lemma Utf8Decodes(c: char)
    ensures Decoded(Utf8(c)) == c as int
  {
    SixBits(c as int);
    SixBits(c as int / 64);
    SixBits(c as int / 64 / 64);
  }

  lemma SixBits(n: int)
    ensures n / 64 * 64 + n % 64 == n
  {
  }

  /** The length is that of the encoding; the lead byte tells it, and all other bytes are continuation bytes. */
  lemma Utf8LengthMeaning(c: char)
    ensures |Utf8(c)| == Utf8Length(c)
    ensures var lead := Utf8(c)[0];
            && 0 <= lead < 256
            && Utf8Length(c) == if lead < 0x80 then 1 else if lead < 0xE0 then 2 else if lead < 0xF0 then 3 else 4
    ensures forall i :: 1 <= i < |Utf8(c)| ==> 0x80 <= Utf8(c)[i] < 0xC0
  {
  }

  function Bytes(s: string): nat {
    if s == "" then 0 else Bytes(s[..|s| - 1]) + Utf8Length(s[|s| - 1])
  }

  function TextBytes(text: Text): nat {
    if text == [] then 0 else TextBytes(text[..|text| - 1]) + Bytes(text[|text| - 1])
  }

  /** The characters with the Unicode property White_Space. */
  predicate IsWhitespace(c: char) {
    var n := c as int;
    || 0x9 <= n <= 0xD || n == 0x20 || n == 0x85 || n == 0xA0 || n == 0x1680
    || 0x2000 <= n <= 0x200A || n == 0x2028 || n == 0x2029 || n == 0x202F || n == 0x205F || n == 0x3000
  }

  predicate Breaks(grapheme: string) {
    exists i :: 0 <= i < |grapheme| && IsWhitespace(grapheme[i])
  }

  function Join(text: Text): string {
    if text == [] then "" else Join(text[..|text| - 1]) + text[|text| - 1]
  }

  lemma {:induction false} JoinConcat(a: Text, b: Text)
    ensures Join(a + b) == Join(a) + Join(b)
  {
    if b == [] {
      assert a + b == a;
    } else {
      var n := |b| - 1;
      assert (a + b)[..|a + b| - 1] == a + b[..n];
      JoinConcat(a, b[..n]);
      Regroup(Join(a), Join(b[..n]), b[n]);
    }
  }

  lemma JoinOne(s: string)
    ensures Join([s]) == s
  {
    assert [s][..0] == [];
    assert "" + s == s;
  }

  lemma {:induction false} TextBytesConcat(a: Text, b: Text)
    ensures TextBytes(a + b) == TextBytes(a) + TextBytes(b)
  {
    if b == [] {
      assert a + b == a;
    } else {
      var n := |b| - 1;
      assert (a + b)[..|a + b| - 1] == a + b[..n];
      TextBytesConcat(a, b[..n]);
    }
  }

  /** From `start` to `fit` the text fits, and one more grapheme would not. */
  ghost predicate LongestFit(text: Text, start: nat, fit: nat, breakAt: nat)
    requires start <= fit <= |text|
  {
    && TextBytes(text[start..fit]) <= breakAt
    && (fit < |text| ==> TextBytes(text[start..fit + 1]) > breakAt)
  }

  /** The line ends behind the first white space past `fit`, or with the text. */
  ghost predicate RunsOn(text: Text, fit: nat, end: nat)
    requires fit <= end <= |text|
  {
    && (fit < |text| ==> fit < end)
    && (forall i :: fit <= i < end - 1 ==> !Breaks(text[i]))
    && (fit < end < |text| ==> Breaks(text[end - 1]))
  }

  ghost predicate IsLine(text: Text, start: nat, end: nat, breakAt: nat) {
    exists fit :: start <= fit <= end <= |text| && LongestFit(text, start, fit, breakAt) && RunsOn(text, fit, end)
  }

  lemma {:induction false} LongerIsMore(text: Text, start: nat, fit: nat, fit': nat)
    requires start <= fit <= fit' <= |text|
    ensures TextBytes(text[start..fit]) <= TextBytes(text[start..fit'])
  {
    assert text[start..fit'] == text[start..fit] + text[fit..fit'];
    TextBytesConcat(text[start..fit], text[fit..fit']);
  }

  lemma NoLongerFit(text: Text, start: nat, fit: nat, fit': nat, breakAt: nat)
    requires start <= fit <= |text| && start <= fit' <= |text|
    requires LongestFit(text, start, fit, breakAt) && LongestFit(text, start, fit', breakAt)
    ensures fit' <= fit
  {
    if fit < fit' {
      LongerIsMore(text, start, fit + 1, fit');
    }
  }

  lemma RunIsUnique(text: Text, fit: nat, end: nat, end': nat)
    requires fit <= end <= |text| && fit <= end' <= |text| && RunsOn(text, fit, end) && RunsOn(text, fit, end')
    ensures end == end'
  {
    assert fit < end ==> end == |text| || Breaks(text[end - 1]);
    assert fit < end' ==> end' == |text| || Breaks(text[end' - 1]);
  }

  /** The rule leaves no choice: a line from a given start ends in exactly one place. */
  lemma LineIsUnique(text: Text, start: nat, end: nat, end': nat, breakAt: nat)
    requires IsLine(text, start, end, breakAt) && IsLine(text, start, end', breakAt)
    ensures end == end'
  {
    var fit :| start <= fit <= end <= |text| && LongestFit(text, start, fit, breakAt) && RunsOn(text, fit, end);
    var fit' :| start <= fit' <= end' <= |text| && LongestFit(text, start, fit', breakAt) && RunsOn(text, fit', end');
    NoLongerFit(text, start, fit, fit', breakAt);
    NoLongerFit(text, start, fit', fit, breakAt);
    RunIsUnique(text, fit, end, end');
  }

  ghost predicate NoEmptyGrapheme(text: Text) {
    forall k :: 0 <= k < |text| ==> text[k] != ""
  }

  lemma {:induction false} JoinNotEmpty(text: Text)
    requires NoEmptyGrapheme(text)
    ensures |Join(text)| >= |text|
  {
    if text != [] {
      JoinNotEmpty(text[..|text| - 1]);
    }
  }

  /** Lines are not empty; a line before the end is longer than the limit and ends in white space. */
  lemma LineShape(text: Text, start: nat, end: nat, breakAt: nat)
    requires start < |text| && IsLine(text, start, end, breakAt)
    ensures start < end <= |text|
    ensures NoEmptyGrapheme(text) ==> Join(text[start..end]) != ""
    ensures end < |text| ==> TextBytes(text[start..end]) > breakAt && Breaks(text[end - 1])
  {
    var fit :| start <= fit <= end <= |text| && LongestFit(text, start, fit, breakAt) && RunsOn(text, fit, end);
    if end < |text| {
      LongerIsMore(text, start, fit + 1, end);
    }
    if NoEmptyGrapheme(text) {
      JoinNotEmpty(text[start..end]);
    }
  }

  lemma FitOfRest(text: Text, start: nat, fit: nat, breakAt: nat)
    requires start <= |text| && fit <= |text| - start && LongestFit(text[start..], 0, fit, breakAt)
    ensures LongestFit(text, start, start + fit, breakAt)
  {
    var rest := text[start..];
    assert rest[0..fit] == text[start..start + fit];
    assert fit < |rest| ==> rest[0..fit + 1] == text[start..start + fit + 1];
    hide TextBytes;
  }

  lemma RunOfRest(text: Text, start: nat, fit: nat, count: nat)
    requires start <= |text| && fit <= count <= |text| - start && RunsOn(text[start..], fit, count)
    ensures RunsOn(text, start + fit, start + count)
  {
    hide Breaks;
    var rest := text[start..];
    assert forall i :: start <= i < |text| ==> text[i] == rest[i - start];
  }

  /** A line of the rest of a text is a line of the text. */
  lemma LineOfRest(text: Text, start: nat, count: nat, breakAt: nat)
    requires start <= |text| && IsLine(text[start..], 0, count, breakAt)
    ensures IsLine(text, start, start + count, breakAt)
  {
    hide LongestFit, RunsOn;
    var rest := text[start..];
    var fit :| 0 <= fit <= count <= |rest| && LongestFit(rest, 0, fit, breakAt) && RunsOn(rest, fit, count);
    FitOfRest(text, start, fit, breakAt);
    RunOfRest(text, start, fit, count);
  }

  /** Taking a line off the rest of a text. */
  lemma LineTaken(text: Text, start: nat, count: nat, breakAt: nat)
    requires start < |text| && IsLine(text[start..], 0, count, breakAt) && NoEmptyGrapheme(text)
    ensures 0 < count <= |text| - start && IsLine(text, start, start + count, breakAt)
    ensures var length := |Join(text[start..][..count])|;
            && length <= |Join(text[start..])|
            && Join(text[start..])[..length] == Join(text[start..start + count]) != ""
            && |Join(text[..start + count])| == |Join(text[..start])| + length
  {
    LineOfRest(text, start, count, breakAt);
    LineShape(text, start, start + count, breakAt);
    assert text[start..][..count] == text[start..start + count];
    assert text[..start + count] == text[..start] + text[start..start + count];
    assert text[start..] == text[start..start + count] + text[start + count..];
    hide IsLine, Join;
    JoinConcat(text[..start], text[start..start + count]);
    JoinConcat(text[start..start + count], text[start + count..]);
  }

  /** Cutting into graphemes loses nothing, yields no empty ones, and may start again between any two of them. */
  ghost predicate Segments(segment: string -> Text) {
    && (forall s :: Join(segment(s)) == s && NoEmptyGrapheme(segment(s)))
    && (forall s, k :: 0 <= k <= |segment(s)| ==> segment(Join(segment(s)[k..])) == segment(s)[k..])
  }

  /** As many graphemes as fit, and how many characters they have. */
  method MeasureFit(graphemes: Text, breakAt: nat) returns (count: nat, length: nat)
    ensures count <= |graphemes| && LongestFit(graphemes, 0, count, breakAt)
    ensures length == |Join(graphemes[..count])|
  {
    var currentLen := 0;
    count, length := 0, 0;
    while count < |graphemes| && currentLen + Bytes(graphemes[count]) <= breakAt
      invariant count <= |graphemes|
      invariant currentLen == TextBytes(graphemes[..count]) <= breakAt
      invariant length == |Join(graphemes[..count])|
    {
      assert graphemes[..count + 1][..count] == graphemes[..count];
      currentLen := currentLen + Bytes(graphemes[count]);
      length := length + |graphemes[count]|;
      count := count + 1;
    }
    assert graphemes[0..count] == graphemes[..count];
    if count < |graphemes| {
      assert graphemes[0..count + 1][..count] == graphemes[..count];
    }
  }

  /** Goes on through the next white space, or to the end. */
  method MeasureRun(graphemes: Text, fit: nat, fitLength: nat) returns (count: nat, length: nat)
    requires fit <= |graphemes| && fitLength == |Join(graphemes[..fit])|
    ensures fit <= count <= |graphemes| && RunsOn(graphemes, fit, count)
    ensures length == |Join(graphemes[..count])|
  {
    var broken := false;
    count, length := fit, fitLength;
    while count < |graphemes| && !broken
      invariant fit <= count <= |graphemes|
      invariant forall i :: fit <= i < count - 1 ==> !Breaks(graphemes[i])
      invariant fit < count ==> broken == Breaks(graphemes[count - 1])
      invariant fit == count ==> !broken
      invariant length == |Join(graphemes[..count])|
    {
      hide Breaks;
      assert graphemes[..count + 1][..count] == graphemes[..count];
      broken := Breaks(graphemes[count]);
      length := length + |graphemes[count]|;
      count := count + 1;
    }
  }

  /** How many graphemes the next line takes, and how many characters. */
  method MeasureLine(graphemes: Text, breakAt: nat) returns (count: nat, length: nat)
    ensures IsLine(graphemes, 0, count, breakAt) && count <= |graphemes|
    ensures length == |Join(graphemes[..count])|
  {
    hide LongestFit, RunsOn, Join;
    var fit, fitLength := MeasureFit(graphemes, breakAt);
    count, length := MeasureRun(graphemes, fit, fitLength);
  }

  /** Breaks a string; the rest of it is cut into graphemes anew for every line. */
  class LineBreaker {
    const source: string
    const segment: string -> Text
    const breakAt: nat
    var index: nat
    /** How many of the graphemes of the whole string have been handed out. */
    ghost var done: nat

    ghost function Graphemes(): Text {
      segment(source)
    }

    ghost predicate Valid()
      reads this
    {
      Segments(segment) && done <= |Graphemes()| && index == |Join(Graphemes()[..done])|
    }

    constructor (s: string, segment: string -> Text, breakAt: nat)
      requires Segments(segment)
      ensures Valid() && Graphemes() == segment(s) && this.breakAt == breakAt && done == 0
    {
      this.source, this.segment, this.breakAt, index, done := s, segment, breakAt, 0, 0;
    }

    /** What is left of the string is what is left of its graphemes. */
    lemma Rest()
      requires Valid()
      ensures index <= |source| && source[index..] == Join(Graphemes()[done..])
      ensures segment(source[index..]) == Graphemes()[done..]
      ensures index == |source| <==> done == |Graphemes()|
    {
      var text := Graphemes();
      assert text == text[..done] + text[done..];
      JoinConcat(text[..done], text[done..]);
      JoinNotEmpty(text[done..]);
    }

    method Next() returns (line: Option<string>)
      requires Valid()
      modifies this
      ensures Valid()
      ensures line.Some? <==> old(done) < |Graphemes()|
      ensures line.None? ==> done == old(done)
      ensures line.Some? ==> IsLine(Graphemes(), old(done), done, breakAt) && old(done) < done &&
                             line.value == Join(Graphemes()[old(done)..done]) != ""
    {
      Rest();
      if index >= |source| {
        return None;
      }
      assert NoEmptyGrapheme(Graphemes());
      hide IsLine, Join, Segments, NoEmptyGrapheme;
      var count, length := MeasureLine(segment(source[index..]), breakAt);
      LineTaken(Graphemes(), done, count, breakAt);
      assert source[index..][..length] == source[index..index + length];
      line := Some(source[index..index + length]);
      index, done := index + length, done + count;
    }
  }

  // ---------------------------------------------------------------------------------------------
  // All lines of a text

  /** Where line `k` starts, given where the lines end. */
  function StartOf(ends: seq<nat>, k: nat): nat
    requires k <= |ends|
  {
    if k == 0 then 0 else ends[k - 1]
  }

  function Slice(text: Text, from: nat, to: nat): Text {
    if from <= to <= |text| then text[from..to] else []
  }

  ghost predicate LineAt(text: Text, ends: seq<nat>, k: nat, breakAt: nat)
    requires k < |ends|
  {
    StartOf(ends, k) < |text| && IsLine(text, StartOf(ends, k), ends[k], breakAt)
  }

  ghost predicate AreLines(text: Text, ends: seq<nat>, breakAt: nat) {
    forall k :: 0 <= k < |ends| ==> LineAt(text, ends, k, breakAt)
  }

  /** The ends of all lines of the text. */
  ghost predicate IsBreaking(text: Text, ends: seq<nat>, breakAt: nat) {
    AreLines(text, ends, breakAt) && StartOf(ends, |ends|) == |text|
  }

  function LinesOf(text: Text, ends: seq<nat>): (lines: seq<string>)
    ensures |lines| == |ends|
  {
    if ends == [] then []
    else
      var n := |ends| - 1;
      LinesOf(text, ends[..n]) + [Join(Slice(text, StartOf(ends, n), ends[n]))]
  }

  lemma {:induction false} LineText(text: Text, ends: seq<nat>, k: nat)
    requires k < |ends|
    ensures LinesOf(text, ends)[k] == Join(Slice(text, StartOf(ends, k), ends[k]))
  {
    if k < |ends| - 1 {
      LineText(text, ends[..|ends| - 1], k);
    }
  }

  lemma AreLinesPrefix(text: Text, ends: seq<nat>, breakAt: nat, n: nat)
    requires AreLines(text, ends, breakAt) && n <= |ends|
    ensures AreLines(text, ends[..n], breakAt) && StartOf(ends[..n], n) == StartOf(ends, n)
  {
    forall k | 0 <= k < n ensures LineAt(text, ends[..n], k, breakAt) {
      assert LineAt(text, ends, k, breakAt);
    }
  }

  lemma LineJoins(text: Text, from: nat, to: nat, lines: seq<string>)
    requires from <= to <= |text| && Join(lines) == Join(text[..from])
    ensures Join(lines + [Join(text[from..to])]) == Join(text[..to])
  {
    assert text[..to] == text[..from] + text[from..to];
    hide Join;
    JoinConcat(text[..from], text[from..to]);
    JoinConcat(lines, [Join(text[from..to])]);
    JoinOne(Join(text[from..to]));
  }

  lemma {:induction false} LinesCover(text: Text, ends: seq<nat>, breakAt: nat)
    requires AreLines(text, ends, breakAt)
    ensures StartOf(ends, |ends|) <= |text|
    ensures Join(LinesOf(text, ends)) == Join(text[..StartOf(ends, |ends|)])
    decreases |ends|
  {
    if ends != [] {
      var n := |ends| - 1;
      AreLinesPrefix(text, ends, breakAt, n);
      LinesCover(text, ends[..n], breakAt);
      assert LineAt(text, ends, n, breakAt);
      LineShape(text, StartOf(ends, n), ends[n], breakAt);
      hide IsLine, AreLines, Join;
      LineJoins(text, StartOf(ends, n), ends[n], LinesOf(text, ends[..n]));
    }
  }

  /** The lines put together again are the text. */
  lemma LinesRestoreText(text: Text, ends: seq<nat>, breakAt: nat)
    requires IsBreaking(text, ends, breakAt)
    ensures Join(LinesOf(text, ends)) == Join(text)
  {
    LinesCover(text, ends, breakAt);
    assert text[..|text|] == text;
  }

  /** No word is split: every line but the last is longer than the limit and ends in white space. */
  lemma NoWordIsSplit(text: Text, ends: seq<nat>, breakAt: nat, k: nat)
    requires IsBreaking(text, ends, breakAt) && k < |ends|
    ensures StartOf(ends, k) < ends[k] <= |text| && LinesOf(text, ends)[k] == Join(text[StartOf(ends, k)..ends[k]])
    ensures NoEmptyGrapheme(text) ==> LinesOf(text, ends)[k] != ""
    ensures k < |ends| - 1 ==> TextBytes(text[StartOf(ends, k)..ends[k]]) > breakAt && Breaks(text[ends[k] - 1])
  {
    assert LineAt(text, ends, k, breakAt);
    LineShape(text, StartOf(ends, k), ends[k], breakAt);
    LineText(text, ends, k);
    if k < |ends| - 1 {
      assert LineAt(text, ends, k + 1, breakAt);
    }
  }

  lemma {:induction false} SameEnds(text: Text, ends: seq<nat>, ends': seq<nat>, breakAt: nat, n: nat)
    requires AreLines(text, ends, breakAt) && AreLines(text, ends', breakAt) && n <= |ends| && n <= |ends'|
    ensures ends[..n] == ends'[..n]
  {
    if n > 0 {
      SameEnds(text, ends, ends', breakAt, n - 1);
      var m := n - 1;
      assert m > 0 ==> ends[m - 1] == ends[..m][m - 1] == ends'[..m][m - 1] == ends'[m - 1];
      assert LineAt(text, ends, m, breakAt) && LineAt(text, ends', m, breakAt);
      assert ends[..n] == ends[..m] + [ends[m]] && ends'[..n] == ends'[..m] + [ends'[m]];
      LineIsUnique(text, StartOf(ends, n - 1), ends[n - 1], ends'[n - 1], breakAt);
    }
  }

  lemma StartsInside(text: Text, ends: seq<nat>, breakAt: nat)
    requires AreLines(text, ends, breakAt)
    ensures forall k :: 0 <= k < |ends| ==> StartOf(ends, k) < |text|
  {
    forall k | 0 <= k < |ends| ensures StartOf(ends, k) < |text| {
      assert LineAt(text, ends, k, breakAt);
    }
  }

  /** There is only one way to break a text. */
  lemma BreakingIsUnique(text: Text, ends: seq<nat>, ends': seq<nat>, breakAt: nat)
    requires IsBreaking(text, ends, breakAt) && IsBreaking(text, ends', breakAt)
    ensures ends == ends'
  {
    var n := if |ends| < |ends'| then |ends| else |ends'|;
    SameEnds(text, ends, ends', breakAt, n);
    assert n > 0 ==> ends[n - 1] == ends[..n][n - 1] == ends'[..n][n - 1] == ends'[n - 1];
    StartsInside(text, ends, breakAt);
    StartsInside(text, ends', breakAt);
    assert StartOf(ends, n) == StartOf(ends', n);
    assert |ends| == n && |ends'| == n;
    assert ends == ends[..n] && ends' == ends'[..n];
  }

  // ---------------------------------------------------------------------------------------------
  // Printed descriptions

  const DOC_WIDTH: nat := 80
  const QUOTES := "\"\"\""

  function WithoutNewlines(s: string): string {
    if s == "" then ""
    else WithoutNewlines(s[..|s| - 1]) + if s[|s| - 1] == '\n' then "" else [s[|s| - 1]]
  }

  /** Only newlines go: all other characters stay, in their order. */
  lemma {:induction false} OnlyNewlinesGo(a: string, b: string, c: char)
    ensures WithoutNewlines(a + b) == WithoutNewlines(a) + WithoutNewlines(b)
    ensures WithoutNewlines([c]) == if c == '\n' then "" else [c]
  {
    assert [c][..0] == [];
    if b == "" {
      assert a + b == a;
    } else {
      var n := |b| - 1;
      assert (a + b)[..|a + b| - 1] == a + b[..n];
      OnlyNewlinesGo(a, b[..n], c);
      Regroup(WithoutNewlines(a), WithoutNewlines(b[..n]), if b[n] == '\n' then "" else [b[n]]);
    }
  }

  /** They stay as often as before. */
  lemma {:induction false} OtherCharactersStay(s: string, c: char)
    ensures c != '\n' ==> multiset(WithoutNewlines(s))[c] == multiset(s)[c]
    ensures '\n' !in s ==> WithoutNewlines(s) == s
  {
    if s != "" {
      var n := |s| - 1;
      OtherCharactersStay(s[..n], c);
      assert s == s[..n] + [s[n]];
    }
  }

  function Spaces(n: nat): (s: string)
    ensures |s| == n && forall i :: 0 <= i < n ==> s[i] == ' '
  {
    seq(n, _ => ' ')
  }

  /** Every line with the indentation before and a newline behind it. */
  function Printed(lines: seq<string>, indent: nat): string {
    if lines == [] then ""
    else Printed(lines[..|lines| - 1], indent) + (Spaces(indent) + lines[|lines| - 1] + "\n")
  }

  lemma PrintedOne(line: string, indent: nat)
    ensures Printed([line], indent) == Spaces(indent) + line + "\n"
  {
    assert [line][..0] == [];
    assert Printed([], indent) == "";
  }

  /** Lines are printed one below the other: each is indented by spaces and ends in a newline. */
  lemma {:induction false} PrintedInTurn(a: seq<string>, b: seq<string>, line: string, indent: nat)
    ensures Printed(a + b, indent) == Printed(a, indent) + Printed(b, indent)
    ensures Printed([line], indent) == Spaces(indent) + line + "\n"
  {
    PrintedOne(line, indent);
    if b == [] {
      assert a + b == a;
    } else {
      var n := |b| - 1;
      assert (a + b)[..|a + b| - 1] == a + b[..n];
      PrintedInTurn(a, b[..n], line, indent);
      Regroup(Printed(a, indent), Printed(b[..n], indent), Spaces(indent) + b[n] + "\n");
    }
  }

  /** Reads printed lines back: splits at newlines and takes the indentation off every complete line. */
  function ReadBack(s: string, indent: nat): seq<string> {
    if s == "" then []
    else ReadFrom(s[..|s| - 1], indent, "")
  }

  function Unindented(line: string, indent: nat): string {
    if indent <= |line| then line[indent..] else ""
  }

  /** `tail` is what of the last line has been read already, from right to left. */
  function ReadFrom(s: string, indent: nat, tail: string): seq<string> {
    if s == "" then [Unindented(tail, indent)]
    else if s[|s| - 1] == '\n' then ReadFrom(s[..|s| - 1], indent, "") + [Unindented(tail, indent)]
    else ReadFrom(s[..|s| - 1], indent, [s[|s| - 1]] + tail)
  }

  lemma {:induction false} ReadLine(s: string, line: string, indent: nat, tail: string)
    requires '\n' !in line
    ensures ReadFrom(s + line, indent, tail) == ReadFrom(s, indent, line + tail)
  {
    if line == "" {
      assert s + line == s && line + tail == tail;
    } else {
      var n := |line| - 1;
      assert (s + line)[..|s + line| - 1] == s + line[..n];
      ReadLine(s, line[..n], indent, [line[n]] + tail);
      assert line[..n] + ([line[n]] + tail) == line + tail;
    }
  }

  /** Reading printed lines gives the lines. */
  lemma {:induction false} ReadBackPrinted(lines: seq<string>, indent: nat)
    requires forall line :: line in lines ==> '\n' !in line
    ensures ReadBack(Printed(lines, indent), indent) == lines
  {
    if lines != [] {
      var n := |lines| - 1;
      var before, line := Printed(lines[..n], indent), Spaces(indent) + lines[n];
      assert Printed(lines, indent) == before + (line + "\n");
      assert Printed(lines, indent)[..|before + line|] == before + line;
      assert '\n' !in lines[n];
      ReadLine(before, line, indent, "");
      assert line + "" == line && Unindented(line, indent) == lines[n];
      ReadBackPrinted(lines[..n], indent);
      if n > 0 {
        assert before[|before| - 1] == '\n';
      }
      assert lines == lines[..n] + [lines[n]];
    }
  }

  lemma {:induction false} NoNewlines(s: string)
    ensures '\n' !in WithoutNewlines(s)
  {
    if s != "" { NoNewlines(s[..|s| - 1]); }
  }

  lemma {:induction false} PartOfJoin(text: Text, k: nat, c: char)
    requires k < |text| && c in text[k]
    ensures c in Join(text)
  {
    if k < |text| - 1 { PartOfJoin(text[..|text| - 1], k, c); }
  }

  /** The printed description between its two lines of quotes. */
  function DocLines(lines: seq<string>): seq<string> {
    [QUOTES] + lines + [QUOTES]
  }

  lemma OneMoreLine(text: Text, ends: seq<nat>, end: nat, breakAt: nat)
    requires AreLines(text, ends, breakAt) && StartOf(ends, |ends|) < end <= |text|
    requires IsLine(text, StartOf(ends, |ends|), end, breakAt)
    ensures AreLines(text, ends + [end], breakAt)
    ensures LinesOf(text, ends + [end]) == LinesOf(text, ends) + [Join(text[StartOf(ends, |ends|)..end])]
  {
    hide IsLine, Join;
    var more, n := ends + [end], |ends|;
    forall k | 0 <= k < |more| ensures LineAt(text, more, k, breakAt) {
      if k < n {
        assert LineAt(text, ends, k, breakAt) && StartOf(more, k) == StartOf(ends, k) && more[k] == ends[k];
      } else {
        assert StartOf(more, k) == StartOf(ends, n) && more[k] == end;
      }
    }
    assert more[..n] == ends;
  }

  /** The newline that ends a printed line may as well be written in front of the next one. */
  lemma OneMorePrinted(soFar: string, lines: seq<string>, line: string, indent: nat)
    requires soFar + "\n" == Printed(lines, indent)
    ensures soFar + ("\n" + Spaces(indent) + line) + "\n" == Printed(lines + [line], indent)
  {
    assert (lines + [line])[..|lines|] == lines;
    assert soFar + ("\n" + Spaces(indent) + line) + "\n" == (soFar + "\n") + (Spaces(indent) + line + "\n");
  }

  lemma NoLines(text: Text, breakAt: nat)
    ensures AreLines(text, [], breakAt)
  {
  }

  lemma LinesWithoutNewlines(lines: seq<string>, l: string)
    requires '\n' !in Join(lines) && l in DocLines(lines)
    ensures '\n' !in l
  {
    if l in lines && '\n' in l {
      var k :| 0 <= k < |lines| && lines[k] == l;
      PartOfJoin(lines, k, '\n');
    }
  }

  /** Reads every line of the description; the lines are printed below the opening quotes. */
  method PrintLines(docs: string, segment: string -> Text, indent: nat) returns (r: string, ghost ends: seq<nat>)
    requires Segments(segment)
    ensures IsBreaking(segment(docs), ends, DOC_WIDTH)
    ensures forall es :: IsBreaking(segment(docs), es, DOC_WIDTH) ==>
              r + "\n" == Printed([QUOTES] + LinesOf(segment(docs), es), indent)
  {
    hide AreLines, Printed, Spaces, IsLine, LinesOf, Segments;
    ghost var text := segment(docs);
    var indentStr := Spaces(indent);
    var breaker := new LineBreaker(docs, segment, DOC_WIDTH);
    ends := [];
    r := indentStr + QUOTES;
    assert [QUOTES] + LinesOf(text, []) == [QUOTES];
    assert r + "\n" == Printed([QUOTES], indent) by { PrintedOne(QUOTES, indent); }
    assert AreLines(text, [], DOC_WIDTH) by { NoLines(text, DOC_WIDTH); }
    while true
      invariant breaker.Valid() && breaker.Graphemes() == text && breaker.breakAt == DOC_WIDTH
      invariant AreLines(text, ends, DOC_WIDTH) && StartOf(ends, |ends|) == breaker.done
      invariant r + "\n" == Printed([QUOTES] + LinesOf(text, ends), indent)
      decreases |text| - breaker.done
    {
      var line := breaker.Next();
      if line.None? {
        break;
      }
      OneMoreLine(text, ends, breaker.done, DOC_WIDTH);
      OneMorePrinted(r, [QUOTES] + LinesOf(text, ends), line.value, indent);
      Regroup([QUOTES], LinesOf(text, ends), [line.value]);
      ends := ends + [breaker.done];
      r := r + ("\n" + indentStr + line.value);
    }
    forall es | IsBreaking(text, es, DOC_WIDTH) ensures es == ends {
      BreakingIsUnique(text, es, ends, DOC_WIDTH);
    }
  }

  /**
    Prints a description. Reading the result back without the indentation gives the quotes around lines
    that join to the description without its newlines.
  */
  method GetFormattedDocs(docs: Option<string>, segment: string -> Text, indent: nat)
    returns (r: string, ghost ends: seq<nat>)
    requires Segments(segment)
    ensures docs.None? ==> r == ""
    ensures docs.Some? ==>
              var text := segment(WithoutNewlines(docs.value));
              && IsBreaking(text, ends, DOC_WIDTH)
              && r == Printed(DocLines(LinesOf(text, ends)), indent)
              && ReadBack(r, indent) == DocLines(LinesOf(text, ends))
              && Join(LinesOf(text, ends)) == WithoutNewlines(docs.value)
  {
    if docs.None? {
      return "", [];
    }
    var filtered := WithoutNewlines(docs.value);
    ghost var text := segment(filtered);
    assert Join(text) == filtered;
    hide Printed, ReadBack, Spaces, IsBreaking, Segments;
    r, ends := PrintLines(filtered, segment, indent);
    ghost var lines := LinesOf(text, ends);
    OneMorePrinted(r, [QUOTES] + lines, QUOTES, indent);
    r := r + ("\n" + Spaces(indent) + QUOTES) + "\n";
    LinesRestoreText(text, ends, DOC_WIDTH);
    NoNewlines(docs.value);
    forall l | l in DocLines(lines) ensures '\n' !in l {
      LinesWithoutNewlines(lines, l);
    }
    ReadBackPrinted(DocLines(lines), indent);
  }
}
