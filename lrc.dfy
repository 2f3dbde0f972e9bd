/** The LRC lyrics parser (`parseLrc`, App.tsx): every line of the text
    that holds a `[MM:SS.FF]` or `[MM:SS.FFF]` tag and some text becomes a
    timeline entry; the entries are then sorted stably by time. */
module Lrc {
  import opened Types
  import opened Text
  import opened TimeSort

  /** A time tag as the pattern `\[(\d{2}):(\d{2})\.(\d{2,3})\]` captures
      it: two-digit minutes and seconds (not range-checked) and a two- or
      three-digit fraction. */
  datatype Tag = Tag(minutes: nat, seconds: nat, fraction: nat, fractionDigits: nat)
  {
    predicate Valid()
    {
      minutes < 100 && seconds < 100 &&
      (fractionDigits == 2 || fractionDigits == 3) && fraction < Pow10(fractionDigits)
    }

    /** Number of characters the tag occupies. */
    function Length(): nat
    {
      8 + fractionDigits
    }

    /** `minutes * 60 + seconds + fraction / 100` seconds, in hundredths.
        The fraction counts as hundredths whatever its number of digits,
        so `[01:00.500]` stands for 65 seconds. */
    function Hundredths(): (h: nat)
      ensures h as real / 100.0 == minutes as real * 60.0 + seconds as real + fraction as real / 100.0
    {
      minutes * 6000 + seconds * 100 + fraction
    }

    /** How the tag is written: between brackets, and one character per
        digit and separator. */
    function Text(): (s: string)
      ensures |s| == Length() && s[0] == '[' && s[|s| - 1] == ']'
    {
      "[" + Padded(minutes, 2) + ":" + Padded(seconds, 2) + "." + Padded(fraction, fractionDigits) + "]"
    }
  }

  /** A tag found in a line, with the position of its '['. */
  datatype Match = Match(pos: nat, tag: Tag)

  /** `line` holds the text of `t` from position `p` on. */
  predicate WrittenAt(line: string, p: nat, t: Tag)
  {
    p + t.Length() <= |line| && line[p..p + t.Length()] == t.Text()
  }

  /** The same, read field by field: the brackets and separators, and each
      field zero-padded to its width. */
  predicate FieldsAt(line: string, p: nat, t: Tag)
  {
    var k := t.fractionDigits;
    && 2 <= k && p + 8 + k <= |line|
    && line[p] == '[' && line[p + 1..p + 3] == Padded(t.minutes, 2)
    && line[p + 3] == ':' && line[p + 4..p + 6] == Padded(t.seconds, 2)
    && line[p + 6] == '.' && line[p + 7..p + 7 + k] == Padded(t.fraction, k)
    && line[p + 7 + k] == ']'
  }

  /** The pattern tried at position `p` of `line`. `\d{2,3}` is greedy, but
      only a ']' may follow it, so a '.' followed by four digits fails here. */
  function MatchAt(line: string, p: nat): (r: Option<Tag>)
    ensures r.Some? ==> r.value.Valid() && p + r.value.Length() <= |line|
  {
    if p + 10 <= |line| && line[p] == '[' && AllDigits(line[p + 1..p + 3]) && line[p + 3] == ':'
      && AllDigits(line[p + 4..p + 6]) && line[p + 6] == '.' && AllDigits(line[p + 7..p + 9])
    then
      var mm, ss := ParseDecimal(line[p + 1..p + 3]), ParseDecimal(line[p + 4..p + 6]);
      if line[p + 9] == ']' then
        Some(Tag(mm, ss, ParseDecimal(line[p + 7..p + 9]), 2))
      else if p + 11 <= |line| && IsDigit(line[p + 9]) && line[p + 10] == ']' then
        var fraction := line[p + 7..p + 10];
        assert AllDigits(fraction) by {
          assert forall i :: 0 <= i < 2 ==> fraction[i] == line[p + 7..p + 9][i];
        }
        Some(Tag(mm, ss, ParseDecimal(fraction), 3))
      else None
    else None
  }

  /** What the pattern matches is a valid tag written at that position. */
  lemma MatchAtWritten(line: string, p: nat)
    requires MatchAt(line, p).Some?
    ensures WrittenAt(line, p, MatchAt(line, p).value)
  {
    PadParsed(line[p + 1..p + 3]);
    PadParsed(line[p + 4..p + 6]);
    if line[p + 9] == ']' {
      PadParsed(line[p + 7..p + 9]);
    } else {
      var fraction := line[p + 7..p + 10];
      assert AllDigits(fraction) by {
        assert forall i :: 0 <= i < 2 ==> fraction[i] == line[p + 7..p + 9][i];
      }
      PadParsed(fraction);
    }
    FieldsWritten(line, p, MatchAt(line, p).value);
  }

  /** The pattern matches at `p` whenever a valid tag is written there:
      together with MatchAt's contract, MatchAt(line, p) == Some(t) exactly
      when `t` is valid and written at `p`. */
  lemma MatchAtRecognises(line: string, p: nat, t: Tag)
    requires t.Valid() && WrittenAt(line, p, t)
    ensures MatchAt(line, p) == Some(t)
  {
    var k := t.fractionDigits;
    WrittenFields(line, p, t);
    ParsePadded(t.minutes, 2);
    ParsePadded(t.seconds, 2);
    ParsePadded(t.fraction, k);
    assert line[p + 7..p + 9] == line[p + 7..p + 7 + k][..2];
    if k == 3 {
      assert line[p + 9] == line[p + 7..p + 7 + k][2];
    }
  }

  /** The fields of a tag's text are the tag's fields. */
  lemma TextFields(t: Tag)
    requires t.Valid()
    ensures FieldsAt(t.Text(), 0, t)
  {
    var k := t.fractionDigits;
    var a, b, c := Padded(t.minutes, 2), Padded(t.seconds, 2), Padded(t.fraction, k);
    var s := t.Text();
    assert s == "[" + a + ":" + b + "." + c + "]";
    assert s[1..3] == a;
    assert s[4..6] == b;
    assert s[7..7 + k] == c;
  }

  /** A valid tag written at a position has its fields there. */
  lemma WrittenFields(line: string, p: nat, t: Tag)
    requires t.Valid() && WrittenAt(line, p, t)
    ensures FieldsAt(line, p, t)
  {
    var k, e := t.fractionDigits, p + t.Length();
    var w := line[p..e];
    TextFields(t);
    assert line[p] == w[0] && line[p + 3] == w[3] && line[p + 6] == w[6] && line[p + 7 + k] == w[7 + k];
    SliceOfSlice(line, p, e, 1, 3);
    SliceOfSlice(line, p, e, 4, 6);
    SliceOfSlice(line, p, e, 7, 7 + k);
  }

  /** Fields in place make the whole text of the tag. */
  lemma FieldsWritten(line: string, p: nat, t: Tag)
    requires FieldsAt(line, p, t)
    ensures WrittenAt(line, p, t)
  {
    var k := t.fractionDigits;
    var e := p + 8 + k;
    assert line[p..p + 1] == "[" && line[p + 3..p + 4] == ":";
    assert line[p + 6..p + 7] == "." && line[p + 7 + k..e] == "]";
    SlicesJoin(line, p, p + 1, p + 3);
    SlicesJoin(line, p, p + 3, p + 4);
    SlicesJoin(line, p, p + 4, p + 6);
    SlicesJoin(line, p, p + 6, p + 7);
    SlicesJoin(line, p, p + 7, p + 7 + k);
    SlicesJoin(line, p, p + 7 + k, e);
  }

  lemma SlicesJoin(s: string, a: nat, b: nat, c: nat)
    requires a <= b <= c <= |s|
    ensures s[a..b] + s[b..c] == s[a..c]
  {
  }

  lemma SliceOfSlice(s: string, a: nat, b: nat, i: nat, j: nat)
    requires a <= b <= |s| && i <= j <= b - a
    ensures s[a..b][i..j] == s[a + i..a + j]
  {
    assert forall n :: 0 <= n < j - i ==> s[a..b][i..j][n] == s[a + i + n];
  }

  /** `timeRegex.exec(line)` searching from `from`: the leftmost position
      where the pattern matches. */
  function FirstMatchFrom(line: string, from: nat): (r: Option<Match>)
    decreases |line| - from
    ensures r.Some? ==> from <= r.value.pos && MatchAt(line, r.value.pos) == Some(r.value.tag)
    ensures r.Some? ==> r.value.pos + r.value.tag.Length() <= |line|
    ensures r.Some? ==> forall q :: from <= q < r.value.pos ==> MatchAt(line, q).None?
    ensures r.None? ==> forall q :: from <= q ==> MatchAt(line, q).None?
  {
    if from + 10 > |line| then None
    else match MatchAt(line, from)
      case Some(t) => Some(Match(from, t))
      case None => FirstMatchFrom(line, from + 1)
  }

  function FirstMatch(line: string): Option<Match>
  {
    FirstMatchFrom(line, 0)
  }

  /** `line.replace(timeRegex, '')`: the line without the tag at `m`. */
  function Remainder(line: string, m: Match): (rest: string)
    requires m.pos + m.tag.Length() <= |line|
    ensures |rest| + m.tag.Length() == |line|
  {
    line[..m.pos] + line[m.pos + m.tag.Length()..]
  }

  /** `replace` removes exactly the matched characters: putting the tag's
      text back where it was gives the line again. */
  lemma RemainderRestores(line: string, m: Match)
    requires MatchAt(line, m.pos) == Some(m.tag)
    ensures var rest := Remainder(line, m);
      rest[..m.pos] + m.tag.Text() + rest[m.pos..] == line
  {
    var p, e := m.pos, m.pos + m.tag.Length();
    MatchAtWritten(line, p);
    var rest := Remainder(line, m);
    assert rest[..p] == line[..p] && rest[p..] == line[e..];
    PrefixJoin(line, p, e);
    assert line == line[..e] + line[e..];
  }

  lemma PrefixJoin(s: string, p: nat, e: nat)
    requires p <= e <= |s|
    ensures s[..e] == s[..p] + s[p..e]
  {
  }

  /** What one line contributes to the timeline: the time of its leftmost
      tag and the rest of the line, trimmed, or nothing when the line has
      no tag or nothing but whitespace besides it. */
  function ParseLine(line: string): (r: Option<SyncedLine>)
    ensures r.Some? ==> r.value.text != [] && Trimmed(r.value.text)
  {
    match FirstMatch(line)
    case None => None
    case Some(m) =>
      var text := Trim(Remainder(line, m));
      if text == [] then None else Some(SyncedLine(m.tag.Hundredths(), text))
  }

  /** A line is skipped exactly when the pattern matches nowhere in it, or
      when nothing but whitespace is left once its leftmost tag is removed;
      otherwise its entry has that tag's time. */
  lemma ParseLineSkips(line: string)
    ensures ParseLine(line).None? <==>
      (forall q :: MatchAt(line, q).None?) || AllWhitespace(Remainder(line, FirstMatch(line).value))
    ensures ParseLine(line).Some? ==> ParseLine(line).value.time == FirstMatch(line).value.tag.Hundredths()
  {
    if FirstMatch(line).Some? {
      TrimEmpty(Remainder(line, FirstMatch(line).value));
    }
  }

  /** A line made of a tag and some text parses to the tag's time and the
      trimmed text; a tag followed only by whitespace gives nothing. */
  lemma ParseTaggedLine(t: Tag, rest: string)
    requires t.Valid()
    ensures ParseLine(t.Text() + rest) ==
      if AllWhitespace(rest) then None else Some(SyncedLine(t.Hundredths(), Trim(rest)))
  {
    var line := t.Text() + rest;
    assert line[0..t.Length()] == t.Text();
    MatchAtRecognises(line, 0, t);
    assert FirstMatch(line) == Some(Match(0, t));
    assert Remainder(line, Match(0, t)) == rest;
    TrimEmpty(rest);
  }

  /** Removing a tag shifts a later tag left by the removed length. */
  lemma RemainderKeepsLaterTag(line: string, m: Match, q: nat, t2: Tag)
    requires m.pos + m.tag.Length() <= q && WrittenAt(line, q, t2)
    ensures WrittenAt(Remainder(line, m), q - m.tag.Length(), t2)
  {
    var after := m.pos + m.tag.Length();
    WrittenInSlice(line, after, |line|, q, t2);
    assert line[after..|line|] == line[after..];
    WrittenAfterPrefix(line[..m.pos], line[after..], q - after, q - m.tag.Length(), t2);
  }

  /** Putting text in front shifts a written tag by the text's length. */
  lemma WrittenAfterPrefix(y: string, x: string, i: nat, j: nat, t: Tag)
    requires WrittenAt(x, i, t) && j == |y| + i
    ensures WrittenAt(y + x, j, t)
  {
    PrefixedSlice(y, x, i, i + t.Length());
  }

  lemma PrefixedSlice(y: string, x: string, i: nat, j: nat)
    requires i <= j <= |x|
    ensures (y + x)[|y| + i..|y| + j] == x[i..j]
  {
  }

  /** A slice around a written tag still has it written, shifted by the
      slice's start. */
  lemma WrittenInSlice(s: string, a: nat, b: nat, p: nat, t: Tag)
    requires WrittenAt(s, p, t) && a <= p && p + t.Length() <= b <= |s|
    ensures WrittenAt(s[a..b], p - a, t)
  {
    SliceOfSlice(s, a, b, p - a, p - a + t.Length());
  }

  /** Trimming keeps a written tag whole, since a tag begins with '[' and
      ends with ']'. */
  lemma TrimKeepsTag(s: string, p: nat, t: Tag)
    requires WrittenAt(s, p, t)
    ensures Trim(s) != [] && p >= TrimStart(s) && WrittenAt(Trim(s), p - TrimStart(s), t)
  {
    var e := p + t.Length();
    assert s[p] == s[p..e][0] && s[e - 1] == s[p..e][t.Length() - 1];
    assert !IsWhitespace(s[p]) && !IsWhitespace(s[e - 1]) by {
      BracketsAreNotWhitespace();
    }
    TrimKeepsInterior(s, p, e);
    WrittenInSlice(s, TrimStart(s), TrimEnd(s), p, t);
  }

  lemma BracketsAreNotWhitespace()
    ensures !IsWhitespace('[') && !IsWhitespace(']')
  {
  }

  /** Only the leftmost tag is removed: a later tag of the line survives,
      whole, in the entry's text. */
  lemma LaterTagKept(line: string, q: nat, t2: Tag)
    requires FirstMatch(line).Some?
    requires MatchAt(line, q) == Some(t2)
    requires q >= FirstMatch(line).value.pos + FirstMatch(line).value.tag.Length()
    ensures ParseLine(line).Some?
    ensures exists j :: MatchAt(ParseLine(line).value.text, j) == Some(t2)
  {
    var m := FirstMatch(line).value;
    var rest := Remainder(line, m);
    assert t2.Valid();
    MatchAtWritten(line, q);
    RemainderKeepsLaterTag(line, m, q, t2);
    var q' := q - m.tag.Length();
    TrimKeepsTag(rest, q', t2);
    var text, j := Trim(rest), q' - TrimStart(rest);
    assert WrittenAt(text, j, t2);
    MatchAtRecognises(text, j, t2);
  }

  /** A tag written twice in a row loses only its first copy: the entry's
      text starts with the second. */
  lemma RepeatedTagKept(t: Tag, rest: string)
    requires t.Valid()
    ensures var line := t.Text() + (t.Text() + rest);
      ParseLine(line).Some? && t.Text() <= ParseLine(line).value.text
  {
    var tail := t.Text() + rest;
    TrimKeepsLeadingTag(t, rest);
    ParseTaggedLine(t, tail);
  }

  /** Trimming a text that starts with a tag keeps the tag at its start. */
  lemma TrimKeepsLeadingTag(t: Tag, rest: string)
    requires t.Valid()
    ensures !AllWhitespace(t.Text() + rest) && t.Text() <= Trim(t.Text() + rest)
  {
    var tail, len := t.Text() + rest, t.Length();
    assert !IsWhitespace(tail[0]) && !IsWhitespace(tail[len - 1]) by {
      BracketsAreNotWhitespace();
    }
    TrimKeepsInterior(tail, 0, len);
    assert tail[..TrimEnd(tail)][..len] == t.Text();
  }

  /** The values held by the `Some` elements, in order. */
  function Present(parsed: seq<Option<SyncedLine>>): (entries: seq<SyncedLine>)
    ensures |entries| <= |parsed|
    ensures forall e :: e in entries ==> Some(e) in parsed
  {
    if parsed == [] then []
    else
      var n := |parsed| - 1;
      assert parsed == parsed[..n] + [parsed[n]];
      Present(parsed[..n]) + match parsed[n] case Some(e) => [e] case None => []
  }

  lemma {:induction false} PresentMembers(parsed: seq<Option<SyncedLine>>, e: SyncedLine)
    ensures e in Present(parsed) <==> Some(e) in parsed
  {
    if parsed != [] {
      var n := |parsed| - 1;
      PresentMembers(parsed[..n], e);
      assert parsed == parsed[..n] + [parsed[n]];
    }
  }

  /** What each line gives, line by line. */
  function ParseEach(lines: seq<string>): (parsed: seq<Option<SyncedLine>>)
    ensures |parsed| == |lines|
    ensures forall i :: 0 <= i < |lines| ==> parsed[i] == ParseLine(lines[i])
  {
    seq(|lines|, i requires 0 <= i < |lines| => ParseLine(lines[i]))
  }

  /** The entries the lines give, in line order (the array `parseLrc`
      pushes to, before it is sorted). */
  function Extracted(lines: seq<string>): (entries: seq<SyncedLine>)
    ensures |entries| <= |lines|
    ensures forall e :: e in entries ==> e.text != [] && Trimmed(e.text)
  {
    Present(ParseEach(lines))
  }

  /** An entry is extracted exactly when some line parses to it. */
  lemma ExtractedFromLines(lines: seq<string>, e: SyncedLine)
    ensures e in Extracted(lines) <==> exists i :: 0 <= i < |lines| && ParseLine(lines[i]) == Some(e)
  {
    PresentMembers(ParseEach(lines), e);
  }

  /** Extracting one more line appends that line's entry, if any. */
  lemma ExtractedStep(lines: seq<string>, i: nat)
    requires i < |lines|
    ensures Extracted(lines[..i + 1]) ==
      Extracted(lines[..i]) + match ParseLine(lines[i]) case Some(e) => [e] case None => []
  {
    assert ParseEach(lines[..i + 1])[..i] == ParseEach(lines[..i]);
  }

  /** The timeline `parseLrc` returns, as a function of the text. */
  function LrcTimeline(source: string): (timeline: seq<SyncedLine>)
    ensures SortedByTime(timeline)
    ensures multiset(timeline) == multiset(Extracted(SplitLines(source)))
    ensures |timeline| <= multiset(source)['\n'] + 1
    ensures forall e :: e in timeline ==> e.text != [] && Trimmed(e.text)
  {
    var entries := Extracted(SplitLines(source));
    var timeline := SortByTime(entries);
    SplitLinesCount(source);
    assert forall e :: e in timeline ==> e in multiset(entries);
    timeline
  }

  /** Entries with equal times keep the order of their lines. */
  lemma LrcTimelineStable(source: string, v: nat)
    ensures WithTime(LrcTimeline(source), v) == WithTime(Extracted(SplitLines(source)), v)
  {
    SortByTimeStable(Extracted(SplitLines(source)), v);
  }

  /** Any stable sort by time of the extracted entries is this timeline, so
      the model does not depend on which stable algorithm the engine's
      `Array.prototype.sort` uses. */
  lemma AnyStableSortIsTimeline(source: string, r: seq<SyncedLine>)
    requires SortedByTime(r)
    requires forall v :: WithTime(r, v) == WithTime(Extracted(SplitLines(source)), v)
    ensures r == LrcTimeline(source)
  {
    forall v ensures WithTime(r, v) == WithTime(LrcTimeline(source), v) {
      LrcTimelineStable(source, v);
    }
    StableSortIsUnique(r, LrcTimeline(source));
  }

  /** The `forEach` callback of `parseLrc` for one line: run the pattern,
      read the time, remove the tag, trim, and keep the line if any text is
      left. */
  method LineEntry(line: string) returns (entry: Option<SyncedLine>)
    ensures entry == ParseLine(line)
  {
    entry := None;
    var found := FirstMatch(line);
    if found.Some? {
      var m := found.value;
      var time := m.tag.Hundredths();
      var text := Trim(Remainder(line, m));
      if text != [] {
        entry := Some(SyncedLine(time, text));
      }
    }
  }

  /** `parseLrc`: split the text into lines, push the entry of every line
      that has a tag and some text, then sort by time. */
  method ParseLrc(source: string) returns (timeline: seq<SyncedLine>)
    ensures timeline == LrcTimeline(source)
  {
    var lines := SplitLines(source);
    var result: seq<SyncedLine> := [];
    for i := 0 to |lines|
      invariant result == Extracted(lines[..i])
    {
      ExtractedStep(lines, i);
      var entry := LineEntry(lines[i]);
      if entry.Some? {
        result := result + [entry.value];
      }
    }
    assert lines[..|lines|] == lines;
    timeline := SortByTime(result);
  }

  /** A text without newlines is a single line. */
  lemma SingleLine(s: string)
    requires '\n' !in s
    ensures SplitLines(s) == [s]
  {
    assert multiset(s)['\n'] == 0;
  }

  /** A single line gives its own entry, if any. */
  lemma ExtractedSingle(line: string)
    ensures Extracted([line]) == match ParseLine(line) case Some(e) => [e] case None => []
  {
    assert ParseEach([line]) == [ParseLine(line)];
    assert [ParseLine(line)][..0] == [];
  }

  /** A one-line text made of a valid tag and some text gives exactly one
      entry: the tag's time and the trimmed text. */
  lemma OneTaggedLine(t: Tag, rest: string)
    requires t.Valid() && '\n' !in rest && !AllWhitespace(rest)
    ensures LrcTimeline(t.Text() + rest) == [SyncedLine(t.Hundredths(), Trim(rest))]
  {
    var line, e := t.Text() + rest, SyncedLine(t.Hundredths(), Trim(rest));
    TagHasNoNewline(t);
    assert '\n' !in line;
    SingleLine(line);
    ParseTaggedLine(t, rest);
    ExtractedSingle(line);
    SortSingle(e);
  }

  /** A single entry is already sorted. */
  lemma SortSingle(e: SyncedLine)
    ensures SortByTime([e]) == [e]
  {
    var r := SortByTime([e]);
    assert r[0] in multiset([e]);
  }

  /** A tag is written without a newline. */
  lemma TagHasNoNewline(t: Tag)
    ensures '\n' !in t.Text()
  {
    DigitsHaveNoNewline(Padded(t.minutes, 2));
    DigitsHaveNoNewline(Padded(t.seconds, 2));
    DigitsHaveNoNewline(Padded(t.fraction, t.fractionDigits));
  }

  lemma DigitsHaveNoNewline(s: string)
    requires AllDigits(s)
    ensures '\n' !in s
  {
    assert !IsDigit('\n');
  }

  /** How the tag of the first example is written. */
  lemma HelloTag()
    ensures Tag(0, 8, 52, 2).Text() == "[00:08.52]"
  {
    PaddedTwo(0);
    PaddedTwo(8);
    PaddedTwo(52);
  }

  /** How the tag of the second example is written. */
  lemma WorldTag()
    ensures Tag(1, 0, 500, 3).Text() == "[01:00.500]"
  {
    PaddedTwo(1);
    PaddedTwo(0);
    PaddedThree(500);
  }

  lemma HelloText()
    ensures Trim("Hello") == "Hello" && !AllWhitespace("Hello") && '\n' !in "Hello"
  {
    assert !IsWhitespace('H');
    assert !IsWhitespace('o');
  }

  lemma WorldText()
    ensures Trim("World") == "World" && !AllWhitespace("World") && '\n' !in "World"
  {
    assert !IsWhitespace('W');
    assert !IsWhitespace('d');
  }

  /** The one-line text `[00:08.52]Hello` gives one entry, at 8.52
      seconds. */
  lemma ParseHello(source: string)
    requires source == "[00:08.52]Hello"
    ensures LrcTimeline(source) == [SyncedLine(852, "Hello")]
  {
    HelloTag();
    HelloText();
    assert source == Tag(0, 8, 52, 2).Text() + "Hello";
    OneTaggedLine(Tag(0, 8, 52, 2), "Hello");
  }

  /** The one-line text `[01:00.500]World` gives one entry at 65 seconds:
      the three-digit fraction 500 counts as 500 hundredths. */
  lemma ParseWorld(source: string)
    requires source == "[01:00.500]World"
    ensures LrcTimeline(source) == [SyncedLine(6500, "World")]
  {
    WorldTag();
    WorldText();
    assert source == Tag(1, 0, 500, 3).Text() + "World";
    OneTaggedLine(Tag(1, 0, 500, 3), "World");
  }
}
