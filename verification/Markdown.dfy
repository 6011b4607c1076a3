/** Markdown sections: the parser that splits a document at its ATX headings, the exporter, and
    what becomes of a document that goes through both. */
module Markdown {
  import opened Wrappers
  import opened MarkdownText

  datatype Section = Section(heading: Option<string>, level: nat, content: string, start: nat, end: nat)

  /** A section without its place in the document. */
  datatype Key = Key(heading: Option<string>, level: nat, content: string)

  function KeyOf(s: Section): Key { Key(s.heading, s.level, s.content) }

  function Keys(sections: seq<Section>): seq<Key> {
    seq(|sections|, i requires 0 <= i < |sections| => KeyOf(sections[i]))
  }

  function Hashes(line: string): (n: nat)
    ensures n <= |line| && (n < |line| ==> line[n] != '#') && forall i :: 0 <= i < n ==> line[i] == '#'
  {
    if line == [] || line[0] != '#' then 0 else Hashes(line[1..]) + 1
  }

  /** Level and title of an ATX heading line. */
  function HeadingLevel(line: string): Option<(nat, string)> {
    var n := Hashes(line);
    if n == 0 || n > 6 then None
    else if n < |line| && line[n] != ' ' then None
    else Some((n, Trim(line[n..])))
  }

  /** The heading of a line that starts a section at this threshold. */
  function Boundary(line: string, min: nat): Option<(nat, string)> {
    var h := HeadingLevel(line);
    if h.Some? && h.value.0 >= min then h else None
  }

  function Marks(n: nat): string { seq(n, i => '#') }

  /** An ATX heading: one to six hashes, then nothing, or a rest that begins with a space; the title is the rest
      without the white space around it. */
  ghost predicate IsHeading(line: string, level: nat, title: string) {
    && 1 <= level <= 6
    && exists rest :: line == Marks(level) + rest && (rest == "" || rest[0] == ' ') && Strips(rest, title)
  }

  lemma MarksUnique(line: string, n: nat, rest: string)
    requires line == Marks(n) + rest && (rest != "" ==> rest[0] != '#')
    ensures Hashes(line) == n && line[n..] == rest
  {
    assert n < |line| ==> line[n] == rest[0];
    assert forall i :: 0 <= i < n ==> line[i] == '#';
  }

  /** Which lines start a section, for every line and threshold, and with which level and title. */
  lemma BoundaryExactly(line: string, min: nat, level: nat, title: string)
    ensures Boundary(line, min) == Some((level, title)) <==> level >= min && IsHeading(line, level, title)
  {
    hide Trim, Hashes, Strips;
    var n := Hashes(line);
    assert line == Marks(n) + line[n..];
    TrimExactly(line[n..], title);
    if IsHeading(line, level, title) {
      var rest :| line == Marks(level) + rest && (rest == "" || rest[0] == ' ') && Strips(rest, title);
      MarksUnique(line, level, rest);
    }
  }

  /** Hashes directly before any other character never start a section. */
  lemma HashtagIsContent(n: nat, c: char, rest: string, min: nat)
    requires c != '#' && c != ' '
    ensures Boundary(Marks(n) + [c] + rest, min) == None
  {
    var line := Marks(n) + [c] + rest;
    assert line == Marks(n) + ([c] + rest);
    MarksUnique(line, n, [c] + rest);
  }

  function Content(body: seq<string>): string { TrimNewlines(Join(body)) }

  function Before(i: nat): nat { if i == 0 then 0 else i - 1 }

  // ---- The scan over the lines ------------------------------------------------------------

  /** Finished sections, and the heading, level, first line and body of the open one. */
  datatype Scan = Scan(done: seq<Section>, heading: Option<string>, level: nat, start: nat, body: seq<string>)

  function Opening(): Scan { Scan([], None, 0, 0, []) }

  /** The open section is added unless it is a blank preamble. */
  function Flushed(s: Scan, end: nat): seq<Section> {
    var content := Content(s.body);
    if s.heading.None? && IsBlank(content) then s.done
    else s.done + [Section(s.heading, s.level, content, s.start, end)]
  }

  function Feed(s: Scan, line: string, i: nat, min: nat): Scan {
    match Boundary(line, min)
    case Some(h) => Scan(Flushed(s, Before(i)), Some(h.1), h.0, i, [])
    case None => s.(body := s.body + [line])
  }

  function FeedAll(s: Scan, lines: seq<string>, i: nat, min: nat): Scan
    decreases |lines|
  {
    if lines == [] then s
    else
      var n := |lines| - 1;
      Feed(FeedAll(s, lines[..n], i, min), lines[n], i + n, min)
  }

  function ParseLines(lines: seq<string>, min: nat): seq<Section> {
    Flushed(FeedAll(Opening(), lines, 0, min), Before(|lines|))
  }

  /** Splits a document at headings of at least the given level. */
  method ParseSections(text: string, min: nat) returns (sections: seq<Section>)
    ensures sections == ParseLines(Lines(text), min)
    ensures Tiles(sections, Lines(text), min)
  {
    hide Feed, Flushed, Boundary, Tiles;
    var lines := Lines(text);
    LinesAreOneLine(text);
    ParseTiles(lines, min);
    var s := Opening();
    for i := 0 to |lines|
      invariant s == FeedAll(Opening(), lines[..i], 0, min)
    {
      FeedSnoc(Opening(), lines[..i], lines[i], 0, min);
      assert lines[..i + 1] == lines[..i] + [lines[i]];
      s := Feed(s, lines[i], i, min);
    }
    assert lines[..|lines|] == lines;
    sections := Flushed(s, Before(|lines|));
  }

  lemma FeedSnoc(s: Scan, lines: seq<string>, last: string, i: nat, min: nat)
    ensures FeedAll(s, lines + [last], i, min) == Feed(FeedAll(s, lines, i, min), last, i + |lines|, min)
  {
    assert (lines + [last])[..|lines|] == lines;
  }

  // ---- What parsing means: the sections tile the document ----------------------------------------

  ghost predicate NoBoundary(lines: seq<string>, min: nat) {
    forall i :: 0 <= i < |lines| ==> Boundary(lines[i], min).None?
  }

  ghost predicate AllBlank(lines: seq<string>) { forall i :: 0 <= i < |lines| ==> IsBlank(lines[i]) }

  /** A section is lines `start` to `end`: its heading line, if it has one, and its body; only a
      preamble has no heading, and it is not blank. */
  ghost predicate Cuts(s: Section, lines: seq<string>, min: nat) {
    && s.start <= s.end < |lines|
    && (s.heading.Some? ==> Boundary(lines[s.start], min) == Some((s.level, s.heading.value)))
    && (s.heading.None? ==> s.start == 0 && s.level == 0 && !IsBlank(s.content))
    && var body := lines[if s.heading.Some? then s.start + 1 else s.start..s.end + 1];
    NoBoundary(body, min) && s.content == Content(body)
  }

  /** The sections follow each other without gap up to line `n`; before the first there are only blank lines. */
  ghost predicate TilesTo(sections: seq<Section>, lines: seq<string>, min: nat, n: nat) {
    && n <= |lines|
    && (forall k :: 0 <= k < |sections| ==> Cuts(sections[k], lines, min))
    && (forall k :: 0 < k < |sections| ==> sections[k].heading.Some?)
    && (forall k :: 0 < k < |sections| ==> sections[k - 1].end + 1 == sections[k].start)
    && (sections != [] ==> sections[|sections| - 1].end + 1 == n)
    && var first := if sections == [] then n else sections[0].start;
    first <= n && AllBlank(lines[..first]) && NoBoundary(lines[..first], min)
  }

  ghost predicate Tiles(sections: seq<Section>, lines: seq<string>, min: nat) { TilesTo(sections, lines, min, |lines|) }

  /** The open section after `n` lines. */
  ghost predicate OpenAt(s: Scan, lines: seq<string>, min: nat, n: nat) {
    && s.start <= n <= |lines|
    && (s.heading.Some? ==> s.start < n && Boundary(lines[s.start], min) == Some((s.level, s.heading.value)))
    && (s.heading.None? ==> s.start == 0 && s.level == 0 && s.done == [])
    && s.body == lines[if s.heading.Some? then s.start + 1 else s.start..n]
    && NoBoundary(s.body, min)
  }

  lemma BlankContent(body: seq<string>)
    requires AllOneLine(body)
    ensures IsBlank(Content(body)) ==> AllBlank(body)
    ensures Content(body) != "" ==> body != []
  {
    TrimNewlinesOfJoin(body);
    DropEmptyFacts(body);
    if IsBlank(Content(body)) {
      BlankJoin(DropEmpty(body));
      BlankDrop(body);
    }
  }

  lemma {:induction false} BlankJoin(lines: seq<string>)
    requires IsBlank(Join(lines))
    ensures AllBlank(lines)
  {
    if |lines| > 1 {
      var a, b := lines[0], Join(lines[1..]);
      var t := a + "\n" + b;
      assert forall i :: 0 <= i < |a| ==> t[i] == a[i];
      assert forall i :: 0 <= i < |b| ==> t[|a| + 1 + i] == b[i];
      BlankJoin(lines[1..]);
    }
  }

  lemma {:induction false} BlankDrop(lines: seq<string>)
    requires AllBlank(DropEmpty(lines))
    ensures AllBlank(lines)
  {
    if lines != [] && lines[|lines| - 1] == "" {
      BlankDrop(lines[..|lines| - 1]);
    }
  }

  /** Flushing the open section at `n` extends the tiling to `n`. */
  lemma FlushTiles(s: Scan, lines: seq<string>, min: nat, n: nat)
    requires AllOneLine(lines) && OpenAt(s, lines, min, n) && TilesTo(s.done, lines, min, s.start)
    ensures TilesTo(Flushed(s, Before(n)), lines, min, n)
  {
    hide Content, Boundary, IsBlank;
    BlankContent(s.body);
    if s.heading.None? && IsBlank(Content(s.body)) {
      assert s.body == lines[..n];
    } else {
      NonblankIsNonempty(Content(s.body));
      assert Before(n) + 1 == n && s.start < n;
      var last := Section(s.heading, s.level, Content(s.body), s.start, Before(n));
      assert Cuts(last, lines, min);
      if s.done == [] {
        assert (s.done + [last])[0] == last;
      } else {
        assert (s.done + [last])[0] == s.done[0];
      }
    }
  }

  lemma NonblankIsNonempty(s: string)
    ensures !IsBlank(s) ==> s != ""
  {
  }

  /** One more line keeps the scan in step with the document. */
  lemma FeedTiles(s: Scan, lines: seq<string>, min: nat, n: nat)
    requires AllOneLine(lines) && n < |lines| && OpenAt(s, lines, min, n) && TilesTo(s.done, lines, min, s.start)
    ensures var t := Feed(s, lines[n], n, min);
      OpenAt(t, lines, min, n + 1) && TilesTo(t.done, lines, min, t.start)
  {
    hide TilesTo, Boundary, Flushed, AllOneLine;
    match Boundary(lines[n], min)
    case Some(h) => FlushTiles(s, lines, min, n);
    case None =>
      var from := if s.heading.Some? then s.start + 1 else s.start;
      assert lines[from..n + 1] == lines[from..n] + [lines[n]];
  }

  lemma {:induction false} ScanTiles(lines: seq<string>, min: nat, n: nat)
    requires AllOneLine(lines) && n <= |lines|
    ensures var s := FeedAll(Opening(), lines[..n], 0, min);
      OpenAt(s, lines, min, n) && TilesTo(s.done, lines, min, s.start)
    decreases n
  {
    hide TilesTo, OpenAt, Feed, FeedAll;
    if n == 0 {
      NothingTiles(lines, min);
      assert lines[..0] == [];
    } else {
      ScanTiles(lines, min, n - 1);
      assert lines[..n] == lines[..n - 1] + [lines[n - 1]];
      FeedSnoc(Opening(), lines[..n - 1], lines[n - 1], 0, min);
      FeedTiles(FeedAll(Opening(), lines[..n - 1], 0, min), lines, min, n - 1);
    }
  }

  lemma NothingTiles(lines: seq<string>, min: nat)
    ensures TilesTo([], lines, min, 0) && OpenAt(Opening(), lines, min, 0)
    ensures FeedAll(Opening(), [], 0, min) == Opening()
  {
  }

  /** The sections of a document tile its lines, apart from a blank preamble. */
  lemma ParseTiles(lines: seq<string>, min: nat)
    ensures AllOneLine(lines) ==> Tiles(ParseLines(lines, min), lines, min)
  {
    hide TilesTo, OpenAt, FeedAll, Flushed;
    if AllOneLine(lines) {
      assert lines[..|lines|] == lines;
      ScanTiles(lines, min, |lines|);
      FlushTiles(FeedAll(Opening(), lines, 0, min), lines, min, |lines|);
    }
  }

  /** Every line after the blank preamble belongs to a section. */
  lemma {:induction false} SectionAt(sections: seq<Section>, lines: seq<string>, min: nat, j: nat) returns (k: nat)
    requires Tiles(sections, lines, min) && sections != [] && sections[0].start <= j < |lines|
    ensures k < |sections| && sections[k].start <= j <= sections[k].end
  {
    hide Cuts, NoBoundary, AllBlank;
    k := |sections| - 1;
    while j < sections[k].start
      invariant k < |sections| && j <= sections[k].end
      decreases k
    {
      k := k - 1;
    }
  }

  /** Exactly the heading lines at the threshold start sections: line `j` starts one of this level and title if and
      only if it is such a heading. */
  lemma HeadingsStartSections(sections: seq<Section>, lines: seq<string>, min: nat, j: nat, level: nat, title: string)
    requires Tiles(sections, lines, min) && j < |lines|
    ensures (level >= min && IsHeading(lines[j], level, title)) <==>
      exists k :: 0 <= k < |sections| && sections[k].start == j && sections[k].level == level
                  && sections[k].heading == Some(title)
  {
    hide Boundary, IsHeading, Content, IsBlank;
    BoundaryExactly(lines[j], min, level, title);
    if level >= min && IsHeading(lines[j], level, title) {
      var first := if sections == [] then |lines| else sections[0].start;
      OutsideBody(lines, 0, first, min, j);
      assert lines[0..first] == lines[..first];
      var k := SectionAt(sections, lines, min, j);
      SectionStarts(sections[k], lines, min, j);
    }
  }

  lemma SectionStarts(s: Section, lines: seq<string>, min: nat, j: nat)
    requires Cuts(s, lines, min) && s.start <= j <= s.end && Boundary(lines[j], min).Some?
    ensures s.start == j && s.heading == Some(Boundary(lines[j], min).value.1)
    ensures s.level == Boundary(lines[j], min).value.0
  {
    hide Boundary, Content, IsBlank;
    OutsideBody(lines, if s.heading.Some? then s.start + 1 else s.start, s.end + 1, min, j);
  }

  lemma OutsideBody(lines: seq<string>, from: nat, to: nat, min: nat, j: nat)
    requires from <= to <= |lines| && j < |lines| && Boundary(lines[j], min).Some?
    ensures NoBoundary(lines[from..to], min) ==> j < from || to <= j
  {
    hide Boundary;
    if from <= j < to {
      assert lines[from..to][j - from] == lines[j];
    }
  }
}

/** The exporter, and parsing what it wrote. */
module MarkdownRoundTrip {
  import opened Wrappers
  import opened MarkdownText
  import opened Markdown

  function HeadingLine(level: nat, title: string): string { Marks(if level == 0 then 1 else level) + " " + title }

  /** What the exporter writes for section number `i`. */
  function SectionText(s: Section, i: nat): string {
    (if i > 0 then "\n" else "") +
    (if s.heading.Some? then HeadingLine(s.level, s.heading.value) + "\n" else "") +
    (if s.content != "" then s.content + "\n" else "")
  }

  function ExportText(sections: seq<Section>): string {
    if sections == [] then ""
    else ExportText(sections[..|sections| - 1]) + SectionText(sections[|sections| - 1], |sections| - 1)
  }

  method ExportSections(sections: seq<Section>) returns (out: string)
    ensures out == ExportText(sections)
  {
    out := "";
    for i := 0 to |sections|
      invariant out == ExportText(sections[..i])
    {
      assert sections[..i + 1][..i] == sections[..i];
      if i > 0 {
        out := out + "\n";
      }
      ghost var separated := out;
      if sections[i].heading.Some? {
        out := out + (HeadingLine(sections[i].level, sections[i].heading.value) + "\n");
      }
      if sections[i].content != "" {
        out := out + (sections[i].content + "\n");
      }
      assert out == ExportText(sections[..i]) + SectionText(sections[i], i);
    }
    assert sections[..|sections|] == sections;
  }

  /** Exports of two runs of sections are joined by an empty line. */
  lemma {:induction false} ExportConcat(a: seq<Section>, b: seq<Section>)
    requires a != [] && b != []
    ensures ExportText(a + b) == ExportText(a) + "\n" + ExportText(b)
  {
    hide SectionText, ExportText;
    var n := |b| - 1;
    assert (a + b)[..|a| + n] == a + b[..n] && (a + b)[|a| + n] == b[n];
    ExportLast(a + b);
    ExportLast(b);
    Separator(b[n], |a| + n);
    Separator(b[n], n);
    if n == 0 {
      assert a + b[..0] == a && b[..0] == [];
      Regroup(ExportText(a), "\n", SectionText(b[0], 0));
    } else {
      ExportConcat(a, b[..n]);
      Regroup(ExportText(a) + "\n", ExportText(b[..n]), SectionText(b[n], n));
    }
  }

  lemma ExportLast(sections: seq<Section>)
    requires sections != []
    ensures var n := |sections| - 1; ExportText(sections) == ExportText(sections[..n]) + SectionText(sections[n], n)
    ensures ExportText([]) == ""
  {
    hide SectionText;
  }

  lemma Regroup(a: string, b: string, c: string)
    ensures a + b + c == a + (b + c)
  {
  }

  lemma Separator(s: Section, i: nat)
    ensures SectionText(s, i) == if i > 0 then "\n" + SectionText(s, 0) else SectionText(s, 0)
  {
    hide HeadingLine;
  }

  // ---- The export as lines -----------------------------------------------------------------

  function BodyOf(content: string): seq<string> { if content == "" then [] else Split(content) }

  function HeadLines(s: Section): seq<string> {
    if s.heading.Some? then [HeadingLine(s.level, s.heading.value)] else []
  }

  function SectionLines(s: Section, i: nat): seq<string> {
    (if i > 0 then [""] else []) + HeadLines(s) + BodyOf(s.content)
  }

  function ExportLines(sections: seq<Section>): seq<string> {
    if sections == [] then []
    else ExportLines(sections[..|sections| - 1]) + SectionLines(sections[|sections| - 1], |sections| - 1)
  }

  lemma TerminatedOne(line: string)
    ensures Terminated([line]) == line + "\n"
  {
    assert [line][1..] == [] && Terminated([]) == "";
  }

  lemma SectionTerminated(s: Section, i: nat)
    ensures SectionText(s, i) == Terminated(SectionLines(s, i))
  {
    hide Terminated;
    var sep: seq<string>, body := if i > 0 then [""] else [], BodyOf(s.content);
    TerminatedConcat(sep + HeadLines(s), body);
    TerminatedConcat(sep, HeadLines(s));
    TerminatedOne("");
    TerminatedNone();
    TerminatedSplit(s.content);
    if s.heading.Some? {
      TerminatedOne(HeadingLine(s.level, s.heading.value));
    }
  }

  lemma TerminatedNone()
    ensures Terminated([]) == ""
  {
  }

  lemma {:induction false} ExportTerminated(sections: seq<Section>)
    ensures ExportText(sections) == Terminated(ExportLines(sections))
  {
    if sections != [] {
      var n := |sections| - 1;
      ExportTerminated(sections[..n]);
      SectionTerminated(sections[n], n);
      TerminatedConcat(ExportLines(sections[..n]), SectionLines(sections[n], n));
    }
  }

  // ---- What the parser hands to the exporter ---------------------------------------------------

  ghost predicate WellFormed(s: Section, min: nat) {
    && (s.heading.Some? ==> IsTrimmed(s.heading.value) && OneLine(s.heading.value))
    && (s.heading.Some? ==> min <= s.level <= 6 && 1 <= s.level)
    && (s.heading.None? ==> s.level == 0 && !IsBlank(s.content))
    && NoBoundary(BodyOf(s.content), min) && AllOneLine(BodyOf(s.content))
    && Join(BodyOf(s.content)) == s.content && DropEmpty(BodyOf(s.content)) == BodyOf(s.content)
  }

  ghost predicate AllWellFormed(sections: seq<Section>, min: nat) {
    && (forall k :: 0 <= k < |sections| ==> WellFormed(sections[k], min))
    && (forall k :: 0 < k < |sections| ==> sections[k].heading.Some?)
  }

  /** A content's lines are the body it came from without the empty lines at the end. */
  lemma BodyOfContent(body: seq<string>)
    requires AllOneLine(body)
    ensures BodyOf(Content(body)) == DropEmpty(body) && Join(DropEmpty(body)) == Content(body)
    ensures DropEmpty(body) <= body && DropEmpty(DropEmpty(body)) == DropEmpty(body)
  {
    hide Join, Split, DropEmpty, TrimNewlines;
    TrimNewlinesOfJoin(body);
    DropEmptyFacts(body);
    var kept := DropEmpty(body);
    JoinNone();
    if kept != [] {
      JoinIsNonempty(kept);
      SplitOfJoin(kept);
    }
  }

  lemma JoinNone()
    ensures Join([]) == ""
  {
  }

  lemma BoundaryTitle(line: string, min: nat)
    requires OneLine(line) && Boundary(line, min).Some?
    ensures var (level, title) := Boundary(line, min).value;
      IsTrimmed(title) && OneLine(title) && min <= level <= 6 && 1 <= level
  {
    var n := Hashes(line);
    TrimIsTrimmed(line[n..]);
  }

  lemma CutsWellFormed(s: Section, lines: seq<string>, min: nat)
    requires AllOneLine(lines) && Cuts(s, lines, min)
    ensures WellFormed(s, min)
  {
    hide Boundary, Content, BodyOf, Join, DropEmpty, IsTrimmed, IsBlank;
    var body := lines[if s.heading.Some? then s.start + 1 else s.start..s.end + 1];
    assert AllOneLine(body);
    BodyOfContent(body);
    if s.heading.Some? {
      assert OneLine(lines[s.start]);
      BoundaryTitle(lines[s.start], min);
    }
  }

  lemma ParsedWellFormed(lines: seq<string>, min: nat)
    requires AllOneLine(lines)
    ensures AllWellFormed(ParseLines(lines, min), min)
  {
    hide WellFormed, Cuts, ParseLines;
    ParseTiles(lines, min);
    var sections := ParseLines(lines, min);
    forall k | 0 <= k < |sections|
      ensures WellFormed(sections[k], min)
    {
      CutsWellFormed(sections[k], lines, min);
    }
  }

  // ---- Parsing the exported lines ------------------------------------------------------------------

  /** Level zero is printed as level one. */
  lemma HeadingLineParses(level: nat, title: string, min: nat)
    requires level <= 6 && min <= level && IsTrimmed(title)
    ensures Boundary(HeadingLine(level, title), min) == Some((if level == 0 then 1 else level, title))
  {
    var line, n := HeadingLine(level, title), if level == 0 then 1 else level;
    assert line[n] == ' ' && forall i :: 0 <= i < n ==> line[i] == '#';
    assert line[n..] == " " + title;
    TrimSpaced(title);
  }

  lemma {:induction false} FeedConcat(s: Scan, a: seq<string>, b: seq<string>, i: nat, min: nat)
    ensures FeedAll(s, a + b, i, min) == FeedAll(FeedAll(s, a, i, min), b, i + |a|, min)
    decreases |b|
  {
    if b == [] {
      assert a + b == a;
    } else {
      hide Feed;
      var n := |b| - 1;
      FeedConcat(s, a, b[..n], i, min);
      assert (a + b)[..|a| + n] == a + b[..n];
    }
  }

  lemma {:induction false} FeedBody(s: Scan, lines: seq<string>, i: nat, min: nat)
    requires NoBoundary(lines, min)
    ensures FeedAll(s, lines, i, min) == s.(body := s.body + lines)
    decreases |lines|
  {
    if lines == [] {
      assert s.body + lines == s.body;
    } else {
      hide Boundary;
      var n := |lines| - 1;
      FeedBody(s, lines[..n], i, min);
      assert s.body + lines == s.body + lines[..n] + [lines[n]];
    }
  }

  lemma FeedOne(s: Scan, line: string, i: nat, min: nat)
    ensures FeedAll(s, [line], i, min) == Feed(s, line, i, min)
  {
    FeedSnoc(s, [], line, i, min);
    assert [] + [line] == [line];
  }

  lemma KeysSnoc(sections: seq<Section>, last: Section)
    ensures Keys(sections + [last]) == Keys(sections) + [KeyOf(last)]
  {
  }

  /** The scan has the key of the section it is in, its body as it would be exported, and all before it done. */
  ghost predicate InSection(t: Scan, sections: seq<Section>, k: nat)
    requires k < |sections|
  {
    && Keys(t.done) == Keys(sections[..k])
    && t.heading == sections[k].heading && t.level == sections[k].level && t.body == BodyOf(sections[k].content)
  }

  /** Leaving a section, with or without the empty line the exporter puts after it, yields its key. */
  lemma LeaveSection(t: Scan, sections: seq<Section>, k: nat, min: nat, end: nat)
    requires AllWellFormed(sections, min) && k < |sections| && InSection(t, sections, k)
    ensures Keys(Flushed(t, end)) == Keys(sections[..k + 1])
    ensures Keys(Flushed(t.(body := t.body + [""]), end)) == Keys(sections[..k + 1])
  {
    hide NoBoundary, IsBlank, Join, DropEmpty, BodyOf, TrimNewlines, Keys, IsTrimmed;
    assert WellFormed(sections[k], min);
    var body := t.body;
    assert AllOneLine(body + [""]);
    TrimNewlinesOfJoin(body);
    TrimNewlinesOfJoin(body + [""]);
    DropEmptyFacts(body);
    assert Content(body) == sections[k].content && Content(body + [""]) == sections[k].content;
    var last := Section(t.heading, t.level, sections[k].content, t.start, end);
    assert sections[..k + 1] == sections[..k] + [sections[k]];
    KeysSnoc(sections[..k], sections[k]);
    KeysSnoc(t.done, last);
  }

  /** Reading a heading line and a body enters a section. */
  lemma EnterSection(t: Scan, sections: seq<Section>, k: nat, i: nat, min: nat)
    requires AllWellFormed(sections, min) && k < |sections| && sections[k].heading.Some?
    requires Keys(Flushed(t, Before(i))) == Keys(sections[..k])
    ensures InSection(FeedAll(t, HeadLines(sections[k]) + BodyOf(sections[k].content), i, min), sections, k)
  {
    hide NoBoundary, IsBlank, Join, DropEmpty, BodyOf, Keys, IsTrimmed, Flushed, HeadingLine, Boundary, FeedAll;
    var s := sections[k];
    assert WellFormed(s, min);
    FeedConcat(t, HeadLines(s), BodyOf(s.content), i, min);
    FeedOne(t, HeadingLine(s.level, s.heading.value), i, min);
    HeadingLineParses(s.level, s.heading.value, min);
    FeedBody(FeedAll(t, HeadLines(s), i, min), BodyOf(s.content), i + 1, min);
  }

  lemma FirstSection(sections: seq<Section>, min: nat)
    requires AllWellFormed(sections, min) && sections != []
    ensures InSection(FeedAll(Opening(), SectionLines(sections[0], 0), 0, min), sections, 0)
  {
    hide FeedAll, BodyOf, WellFormed, Flushed, NoBoundary, Keys;
    var s := sections[0];
    assert SectionLines(s, 0) == HeadLines(s) + BodyOf(s.content);
    assert sections[..0] == [];
    OpeningFlushes();
    if s.heading.Some? {
      EnterSection(Opening(), sections, 0, 0, min);
    } else {
      assert SectionLines(s, 0) == BodyOf(s.content) && [] + BodyOf(s.content) == BodyOf(s.content);
      WellFormedBody(s, min);
      FeedBody(Opening(), BodyOf(s.content), 0, min);
    }
  }

  lemma OpeningFlushes()
    ensures Flushed(Opening(), 0) == []
  {
  }

  lemma WellFormedBody(s: Section, min: nat)
    requires WellFormed(s, min)
    ensures NoBoundary(BodyOf(s.content), min) && (s.heading.None? ==> s.level == 0)
  {
  }

  lemma NextSection(t: Scan, sections: seq<Section>, k: nat, i: nat, min: nat)
    requires AllWellFormed(sections, min) && k + 1 < |sections| && InSection(t, sections, k)
    ensures InSection(FeedAll(t, SectionLines(sections[k + 1], k + 1), i, min), sections, k + 1)
  {
    hide FeedAll, BodyOf, WellFormed, Flushed, InSection;
    var s := sections[k + 1];
    var rest := HeadLines(s) + BodyOf(s.content);
    assert SectionLines(s, k + 1) == [""] + rest;
    FeedConcat(t, [""], rest, i, min);
    FeedOne(t, "", i, min);
    assert Boundary("", min).None?;
    LeaveSection(t, sections, k, min, Before(i + 1));
    EnterSection(t.(body := t.body + [""]), sections, k + 1, i + 1, min);
  }

  lemma {:induction false} ExportScans(sections: seq<Section>, k: nat, min: nat)
    requires AllWellFormed(sections, min) && k < |sections|
    ensures InSection(FeedAll(Opening(), ExportLines(sections[..k + 1]), 0, min), sections, k)
  {
    hide FeedAll, SectionLines, InSection, AllWellFormed;
    assert sections[..k + 1][..k] == sections[..k] && sections[..k + 1][k] == sections[k];
    if k == 0 {
      assert ExportLines(sections[..0]) == [];
      assert ExportLines(sections[..1]) == SectionLines(sections[0], 0);
      FirstSection(sections, min);
    } else {
      ExportScans(sections, k - 1, min);
      FeedConcat(Opening(), ExportLines(sections[..k]), SectionLines(sections[k], k), 0, min);
      NextSection(FeedAll(Opening(), ExportLines(sections[..k]), 0, min), sections, k - 1, |ExportLines(sections[..k])|,
                  min);
    }
  }

  /** Parsing the exported lines gives the same headings, levels and contents. */
  lemma ExportParses(sections: seq<Section>, min: nat)
    requires AllWellFormed(sections, min)
    ensures Keys(ParseLines(ExportLines(sections), min)) == Keys(sections)
  {
    if sections == [] {
      assert ParseLines([], min) == [];
    } else {
      hide FeedAll, ExportLines, InSection, AllWellFormed, Flushed;
      var n := |sections| - 1;
      assert sections[..n + 1] == sections;
      ExportScans(sections, n, min);
      LeaveSection(FeedAll(Opening(), ExportLines(sections), 0, min), sections, n, min,
                   Before(|ExportLines(sections)|));
    }
  }

  // ---- Carriage returns ---------------------------------------------------------------------------

  /** No line would lose a carriage return to its line ending. */
  ghost predicate Stable(lines: seq<string>) { forall i :: 0 <= i < |lines| ==> StripCr(lines[i]) == lines[i] }

  /** No line of a section's content ends in a carriage return. */
  ghost predicate NoCrEnds(sections: seq<Section>) {
    forall k :: 0 <= k < |sections| ==> Stable(BodyOf(sections[k].content))
  }

  function KeyCrs(k: Key): nat { (if k.heading.Some? then Crs(k.heading.value) else 0) + Crs(k.content) }

  function KeysCrs(keys: seq<Key>): nat {
    if keys == [] then 0 else KeysCrs(keys[..|keys| - 1]) + KeyCrs(keys[|keys| - 1])
  }

  lemma KeysCrsSnoc(sections: seq<Section>, last: Section)
    ensures KeysCrs(Keys(sections + [last])) == KeysCrs(Keys(sections)) + KeyCrs(KeyOf(last))
  {
    KeysSnoc(sections, last);
    assert Keys(sections + [last])[..|sections|] == Keys(sections);
  }

  lemma StableConcat(a: seq<string>, b: seq<string>)
    ensures Stable(a + b) <==> Stable(a) && Stable(b)
  {
    if Stable(a + b) {
      forall i | 0 <= i < |a| ensures StripCr(a[i]) == a[i] { assert (a + b)[i] == a[i]; }
      forall i | 0 <= i < |b| ensures StripCr(b[i]) == b[i] { assert (a + b)[|a| + i] == b[i]; }
    }
  }

  /** A heading line has its title's carriage returns and does not end in one. */
  lemma HeadingLineCrs(level: nat, title: string)
    requires IsTrimmed(title)
    ensures Crs(HeadingLine(level, title)) == Crs(title)
    ensures StripCr(HeadingLine(level, title)) == HeadingLine(level, title)
  {
    var n := if level == 0 then 1 else level;
    CrsConcat(Marks(n) + " ", title);
    CrsConcat(Marks(n), " ");
    assert " "[1..] == [] && Crs(" ") == 0;
    MarksCrs(n);
  }

  lemma {:induction false} MarksCrs(n: nat)
    ensures Crs(Marks(n)) == 0
  {
    if n > 0 {
      MarksCrs(n - 1);
      assert Marks(n)[1..] == Marks(n - 1);
    }
  }

  lemma CrsInOne(line: string)
    ensures CrsIn([line]) == Crs(line) && CrsIn([]) == 0
  {
    assert [line][..0] == [];
  }

  lemma SectionLinesCrs(s: Section, i: nat, min: nat)
    requires WellFormed(s, min)
    ensures CrsIn(SectionLines(s, i)) == KeyCrs(KeyOf(s))
    ensures Stable(SectionLines(s, i)) <==> Stable(BodyOf(s.content))
  {
    hide BodyOf, IsTrimmed, NoBoundary, HeadingLine, StripCr;
    var sep: seq<string>, body := if i > 0 then [""] else [], BodyOf(s.content);
    CrsInConcat(sep + HeadLines(s), body);
    CrsInConcat(sep, HeadLines(s));
    StableConcat(sep + HeadLines(s), body);
    StableConcat(sep, HeadLines(s));
    CrsInOne("");
    CrsOfJoin(body);
    EmptyLine();
    if s.heading.Some? {
      CrsInOne(HeadingLine(s.level, s.heading.value));
      HeadingLineCrs(s.level, s.heading.value);
    }
  }

  lemma EmptyLine()
    ensures StripCr("") == "" && Crs("") == 0
  {
  }

  lemma ExportSnoc(before: seq<Section>, last: Section)
    ensures ExportLines(before + [last]) == ExportLines(before) + SectionLines(last, |before|)
  {
    hide SectionLines;
    var all := before + [last];
    assert all[..|before|] == before && all[|before|] == last;
  }

  lemma WellFormedSnoc(before: seq<Section>, last: Section, min: nat)
    requires AllWellFormed(before + [last], min)
    ensures AllWellFormed(before, min) && WellFormed(last, min)
  {
    hide WellFormed;
    var all := before + [last];
    assert all[|before|] == last && forall k :: 0 <= k < |before| ==> all[k] == before[k];
  }

  lemma NoCrEndsSnoc(before: seq<Section>, last: Section)
    ensures NoCrEnds(before + [last]) <==> NoCrEnds(before) && Stable(BodyOf(last.content))
  {
    hide Stable, BodyOf;
    var all := before + [last];
    assert all[|before|] == last && forall k :: 0 <= k < |before| ==> all[k] == before[k];
  }

  lemma NothingExported()
    ensures ExportLines([]) == [] && Keys([]) == [] && KeysCrs([]) == 0 && CrsIn([]) == 0
    ensures Stable([]) && NoCrEnds([]) && AllOneLine([])
  {
  }

  lemma {:induction false} ExportCrs(sections: seq<Section>, min: nat)
    requires AllWellFormed(sections, min)
    ensures CrsIn(ExportLines(sections)) == KeysCrs(Keys(sections))
    ensures Stable(ExportLines(sections)) <==> NoCrEnds(sections)
    decreases |sections|
  {
    hide WellFormed, AllWellFormed, NoCrEnds, ExportLines, BodyOf, Stable, KeysCrs, Keys, SectionLines, CrsIn, KeyCrs;
    if sections == [] {
      NothingExported();
    } else {
      var before, last := sections[..|sections| - 1], sections[|sections| - 1];
      assert sections == before + [last];
      ExportSnoc(before, last);
      WellFormedSnoc(before, last, min);
      NoCrEndsSnoc(before, last);
      ExportCrs(before, min);
      SectionLinesCrs(last, |before|, min);
      CrsInConcat(ExportLines(before), SectionLines(last, |before|));
      StableConcat(ExportLines(before), SectionLines(last, |before|));
      KeysCrsSnoc(before, last);
    }
  }

  lemma {:induction false} CrsOfTrimNewlines(s: string)
    ensures Crs(TrimNewlines(s)) <= Crs(s)
  {
    if s != [] && s[|s| - 1] == '\n' {
      CrsOfTrimNewlines(s[..|s| - 1]);
      CrsSplitAt(s, |s| - 1);
    }
  }

  /** The carriage returns held by a scan: in finished sections, in the open heading and in the open body. */
  function ScanCrs(s: Scan): nat {
    KeysCrs(Keys(s.done)) + (if s.heading.Some? then Crs(s.heading.value) else 0) + CrsIn(s.body)
  }

  lemma FlushedCrs(s: Scan, end: nat)
    ensures KeysCrs(Keys(Flushed(s, end))) <= ScanCrs(s)
  {
    hide Crs, CrsIn, TrimNewlines, Join, KeysCrs, Keys;
    CrsOfTrimNewlines(Join(s.body));
    CrsOfJoin(s.body);
    KeysCrsSnoc(s.done, Section(s.heading, s.level, Content(s.body), s.start, end));
  }

  lemma FeedCrs(s: Scan, line: string, i: nat, min: nat)
    ensures ScanCrs(Feed(s, line, i, min)) <= ScanCrs(s) + Crs(line)
  {
    hide Crs, CrsIn, KeysCrs, Keys, Flushed;
    FlushedCrs(s, Before(i));
    CrsInConcat(s.body, [line]);
    CrsInOne(line);
    var n := Hashes(line);
    CrsSplitAt(line, n);
    CrsOfTrim(line[n..]);
    CrsOfTrim(TrimStart(line[n..]));
  }

  lemma {:induction false} FeedAllCrs(lines: seq<string>, min: nat)
    ensures ScanCrs(FeedAll(Opening(), lines, 0, min)) <= CrsIn(lines)
  {
    if lines == [] {
      assert Keys([]) == [];
    } else {
      hide ScanCrs, Feed, Crs;
      var n := |lines| - 1;
      FeedAllCrs(lines[..n], min);
      FeedCrs(FeedAll(Opening(), lines[..n], 0, min), lines[n], n, min);
    }
  }

  /** Parsing makes no carriage returns. */
  lemma ParseCrs(lines: seq<string>, min: nat)
    ensures KeysCrs(Keys(ParseLines(lines, min))) <= CrsIn(lines)
  {
    hide ScanCrs, FeedAll, KeysCrs, Keys, Flushed;
    FeedAllCrs(lines, min);
    FlushedCrs(FeedAll(Opening(), lines, 0, min), Before(|lines|));
  }

  // ---- The round trip ---------------------------------------------------------------------------------

  lemma SectionIsOneLine(s: Section, i: nat, min: nat)
    requires WellFormed(s, min)
    ensures AllOneLine(SectionLines(s, i))
  {
    hide BodyOf, IsTrimmed, NoBoundary, Join, DropEmpty, IsBlank;
    if s.heading.Some? {
      assert OneLine(HeadingLine(s.level, s.heading.value));
    }
  }

  lemma {:induction false} ExportIsOneLine(sections: seq<Section>, min: nat)
    requires AllWellFormed(sections, min)
    ensures AllOneLine(ExportLines(sections))
    decreases |sections|
  {
    hide WellFormed, AllWellFormed, NoCrEnds, ExportLines, SectionLines, OneLine;
    if sections == [] {
      NothingExported();
    } else {
      var before, last := sections[..|sections| - 1], sections[|sections| - 1];
      assert sections == before + [last];
      ExportSnoc(before, last);
      WellFormedSnoc(before, last, min);
      ExportIsOneLine(before, min);
      SectionIsOneLine(last, |before|, min);
    }
  }

  /** For every document and every threshold: parsing the export of the parsed sections gives the same
      headings, levels and contents exactly when no content line ends in a carriage return. */
  lemma RoundTripIff(text: string, min: nat)
    ensures var sections := ParseLines(Lines(text), min);
      Keys(ParseLines(Lines(ExportText(sections)), min)) == Keys(sections) <==> NoCrEnds(sections)
  {
    hide ParseLines, ExportLines, ExportText, AllWellFormed, AllOneLine, Keys, KeysCrs, CrsIn, NoCrEnds;
    hide Lines, Terminated;
    var sections := ParseLines(Lines(text), min);
    LinesAreOneLine(text);
    ParsedWellFormed(Lines(text), min);
    ExportTerminated(sections);
    ExportIsOneLine(sections, min);
    LinesOfTerminated(ExportLines(sections));
    var again := StripAll(ExportLines(sections));
    assert Lines(ExportText(sections)) == again;
    ExportCrs(sections, min);
    if NoCrEnds(sections) {
      assert again == ExportLines(sections);
      ExportParses(sections, min);
    } else {
      CrsOfStripAll(ExportLines(sections));
      ParseCrs(again, min);
      assert KeysCrs(Keys(ParseLines(again, min))) < KeysCrs(Keys(sections));
    }
  }

  /** In particular every document without carriage returns round-trips. */
  lemma RoundTripWithoutCrs(text: string, min: nat)
    requires Crs(text) == 0
    ensures var sections := ParseLines(Lines(text), min);
      Keys(ParseLines(Lines(ExportText(sections)), min)) == Keys(sections)
  {
    hide ParseLines, ExportLines, ExportText, AllWellFormed, AllOneLine, Keys, KeysCrs, CrsIn, NoCrEnds, Lines, Crs;
    var sections := ParseLines(Lines(text), min);
    LinesAreOneLine(text);
    ParsedWellFormed(Lines(text), min);
    CrsOfLines(text);
    ParseCrs(Lines(text), min);
    ExportCrs(sections, min);
    CrsOfStripAll(ExportLines(sections));
    RoundTripIff(text, min);
  }

  /** A last line that ends in a bare carriage return loses it on the way. */
  lemma BareCrIsLost()
    ensures var sections := ParseLines(Lines("a\r"), 1);
      |sections| == 1 && sections[0].content == "a\r" && !NoCrEnds(sections)
  {
    var text := "a\r";
    assert FirstNewline(text) == 2 && Lines(text) == [text];
    assert Boundary(text, 1).None?;
    FeedOne(Opening(), text, 0, 1);
    assert [] + [text] == [text];
    assert Content([text]) == text;
    assert text[0] == 'a' && !IsSpace('a');
    var sections := ParseLines([text], 1);
    assert BodyOf(text) == [text] && StripCr(text) == "a";
    assert BodyOf(sections[0].content)[0] == text;
  }
}
