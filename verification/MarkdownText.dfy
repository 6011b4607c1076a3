/** Lines of text: splitting, joining and trimming, as the Markdown parser and exporter use them. */
module MarkdownText {
  /** The characters with the Unicode property White_Space. */
  predicate IsSpace(c: char) {
    || '\t' <= c <= '\r' || c == ' ' || c == '\U{0085}' || c == '\U{00A0}' || c == '\U{1680}'
    || '\U{2000}' <= c <= '\U{200A}' || c == '\U{2028}' || c == '\U{2029}'
    || c == '\U{202F}' || c == '\U{205F}' || c == '\U{3000}'
  }

  predicate IsBlank(s: string) { forall i :: 0 <= i < |s| ==> IsSpace(s[i]) }

  function TrimStart(s: string): string {
    if s != [] && IsSpace(s[0]) then TrimStart(s[1..]) else s
  }

  function TrimEnd(s: string): string {
    if s != [] && IsSpace(s[|s| - 1]) then TrimEnd(s[..|s| - 1]) else s
  }

  function Trim(s: string): string { TrimEnd(TrimStart(s)) }

  predicate IsTrimmed(s: string) { s != [] ==> !IsSpace(s[0]) && !IsSpace(s[|s| - 1]) }

  /** Drops all newlines at the end. */
  function TrimNewlines(s: string): string {
    if s != [] && s[|s| - 1] == '\n' then TrimNewlines(s[..|s| - 1]) else s
  }

  function Newlines(n: nat): string { seq(n, i => '\n') }

  function FirstNewline(t: string): (k: nat)
    ensures k <= |t| && (k < |t| ==> t[k] == '\n') && forall i :: 0 <= i < k ==> t[i] != '\n'
  {
    if t == [] || t[0] == '\n' then 0 else FirstNewline(t[1..]) + 1
  }

  /** One trailing carriage return is part of the line ending. */
  function StripCr(line: string): string {
    if line != [] && line[|line| - 1] == '\r' then line[..|line| - 1] else line
  }

  /** The lines of a text; only a line that ends in a newline loses a carriage return. */
  function Lines(t: string): seq<string> {
    if t == [] then []
    else
      var k := FirstNewline(t);
      if k == |t| then [t] else [StripCr(t[..k])] + Lines(t[k + 1..])
  }

  /** The pieces between newlines. */
  function Split(t: string): seq<string> {
    var k := FirstNewline(t);
    if k == |t| then [t] else [t[..k]] + Split(t[k + 1..])
  }

  function Join(lines: seq<string>): string {
    if lines == [] then "" else if |lines| == 1 then lines[0] else lines[0] + "\n" + Join(lines[1..])
  }

  function Terminated(lines: seq<string>): string {
    if lines == [] then "" else lines[0] + "\n" + Terminated(lines[1..])
  }

  function StripAll(lines: seq<string>): seq<string> { seq(|lines|, i requires 0 <= i < |lines| => StripCr(lines[i])) }

  /** Drops the empty lines at the end. */
  function DropEmpty(lines: seq<string>): seq<string> {
    if lines != [] && lines[|lines| - 1] == "" then DropEmpty(lines[..|lines| - 1]) else lines
  }

  predicate OneLine(s: string) { forall i :: 0 <= i < |s| ==> s[i] != '\n' }

  predicate AllOneLine(lines: seq<string>) { forall i :: 0 <= i < |lines| ==> OneLine(lines[i]) }

  // ---- Trimming ------------------------------------------------------------------------

  lemma {:induction false} TrimStartEnd(s: string)
    ensures TrimStart(s) != [] ==> !IsSpace(TrimStart(s)[0])
    ensures TrimEnd(s) != [] ==> !IsSpace(TrimEnd(s)[|TrimEnd(s)| - 1])
    ensures TrimEnd(s) <= s && (TrimEnd(s) != [] ==> s[0] == TrimEnd(s)[0])
    ensures OneLine(s) ==> OneLine(TrimStart(s)) && OneLine(TrimEnd(s))
  {
    if s != [] {
      TrimStartEnd(s[1..]);
      TrimStartEnd(s[..|s| - 1]);
    }
  }

  lemma TrimIsTrimmed(s: string)
    ensures IsTrimmed(Trim(s)) && (OneLine(s) ==> OneLine(Trim(s)))
  {
    hide TrimStart, TrimEnd, IsSpace;
    TrimStartEnd(s);
    TrimStartEnd(TrimStart(s));
  }

  /** `t` is `s` without the white space around it. */
  ghost predicate Strips(s: string, t: string) {
    IsTrimmed(t) && exists a, b :: IsBlank(a) && IsBlank(b) && s == a + t + b
  }

  lemma {:induction false} TrimStartDrops(a: string, s: string)
    requires IsBlank(a) && (s != [] ==> !IsSpace(s[0]))
    ensures TrimStart(a + s) == s
  {
    hide IsSpace;
    if a == [] {
      assert a + s == s;
    } else {
      assert (a + s)[0] == a[0] && (a + s)[1..] == a[1..] + s;
      TrimStartDrops(a[1..], s);
    }
  }

  lemma {:induction false} TrimEndDrops(s: string, b: string)
    requires IsBlank(b) && (s != [] ==> !IsSpace(s[|s| - 1]))
    ensures TrimEnd(s + b) == s
  {
    hide IsSpace;
    if b == [] {
      assert s + b == s;
    } else {
      var n := |b| - 1;
      assert (s + b)[|s| + n] == b[n] && (s + b)[..|s| + n] == s + b[..n];
      TrimEndDrops(s, b[..n]);
    }
  }

  lemma {:induction false} TrimStartSplits(s: string) returns (a: string)
    ensures IsBlank(a) && s == a + TrimStart(s)
  {
    hide IsSpace;
    if s != [] && IsSpace(s[0]) {
      a := TrimStartSplits(s[1..]);
      a := [s[0]] + a;
    } else {
      a := [];
    }
  }

  lemma {:induction false} TrimEndSplits(s: string) returns (b: string)
    ensures IsBlank(b) && s == TrimEnd(s) + b
  {
    hide IsSpace;
    if s != [] && IsSpace(s[|s| - 1]) {
      b := TrimEndSplits(s[..|s| - 1]);
      b := b + [s[|s| - 1]];
    } else {
      b := [];
    }
  }

  lemma TrimExactly(s: string, t: string)
    ensures Trim(s) == t <==> Strips(s, t)
  {
    hide IsSpace, TrimStart, TrimEnd, IsBlank;
    TrimIsTrimmed(s);
    var a := TrimStartSplits(s);
    var b := TrimEndSplits(TrimStart(s));
    assert s == a + Trim(s) + b;
    if Strips(s, t) {
      StrippedOnce(s, t);
    }
  }

  lemma StrippedOnce(s: string, t: string)
    requires Strips(s, t)
    ensures Trim(s) == t
  {
    hide IsSpace, TrimStart, TrimEnd;
    var a, b :| IsBlank(a) && IsBlank(b) && s == a + t + b;
    if t == [] {
      assert s == s + [] && IsBlank(s);
      TrimStartDrops(s, []);
      TrimEndDrops([], []);
      assert [] + [] == TrimStart(s);
    } else {
      assert s == a + (t + b) && (t + b)[0] == t[0];
      TrimStartDrops(a, t + b);
      TrimEndDrops(t, b);
    }
  }

  /** Trimming undoes the space an exporter puts before a trimmed title. */
  lemma TrimSpaced(h: string)
    requires IsTrimmed(h)
    ensures Trim(" " + h) == h
  {
    assert (" " + h)[1..] == h;
    assert TrimStart(" " + h) == TrimStart(h) == h;
    assert TrimEnd(h) == h;
  }

  // ---- Splitting, joining, terminating ------------------------------------------------------

  lemma FirstNewlineAt(a: string, b: string)
    requires OneLine(a)
    ensures FirstNewline(a + "\n" + b) == |a| && FirstNewline(a) == |a|
  {
    var t := a + "\n" + b;
    assert t[|a|] == '\n' && forall i :: 0 <= i < |a| ==> t[i] == a[i];
  }

  lemma LinesHead(a: string, b: string)
    requires OneLine(a)
    ensures Lines(a + "\n" + b) == [StripCr(a)] + Lines(b)
  {
    hide StripCr, OneLine, FirstNewline;
    FirstNewlineAt(a, b);
    var t := a + "\n" + b;
    assert t[..|a|] == a && t[|a| + 1..] == b;
  }

  lemma StripAllHead(lines: seq<string>)
    requires lines != []
    ensures StripAll(lines) == [StripCr(lines[0])] + StripAll(lines[1..])
  {
  }

  lemma {:induction false} LinesOfTerminated(lines: seq<string>)
    requires AllOneLine(lines)
    ensures Lines(Terminated(lines)) == StripAll(lines)
  {
    if lines != [] {
      hide Lines, StripCr, StripAll, OneLine;
      LinesOfTerminated(lines[1..]);
      LinesHead(lines[0], Terminated(lines[1..]));
      StripAllHead(lines);
    }
  }

  /** The lines of any text: what stands before each newline, without a carriage return before the newline,
      and what follows the last newline, if anything. */
  lemma {:induction false} LinesOfText(lines: seq<string>, last: string)
    requires AllOneLine(lines) && OneLine(last)
    ensures Lines(Terminated(lines) + last) == StripAll(lines) + if last == "" then [] else [last]
  {
    if lines == [] {
      assert Terminated(lines) + last == last && OneLine(last);
      assert StripAll(lines) == [];
    } else {
      hide Lines, StripCr, StripAll, OneLine;
      var rest := Terminated(lines[1..]) + last;
      assert Terminated(lines) + last == lines[0] + "\n" + rest;
      LinesOfText(lines[1..], last);
      LinesHead(lines[0], rest);
      StripAllHead(lines);
    }
  }

  lemma {:induction false} LinesAreOneLine(t: string)
    ensures AllOneLine(Lines(t))
  {
    if t != [] {
      var k := FirstNewline(t);
      if k < |t| {
        LinesAreOneLine(t[k + 1..]);
        assert OneLine(StripCr(t[..k]));
      } else {
        assert OneLine(t);
      }
    }
  }

  lemma {:induction false} SplitOfJoin(lines: seq<string>)
    requires AllOneLine(lines) && lines != []
    ensures Split(Join(lines)) == lines
  {
    if |lines| == 1 {
      assert OneLine(lines[0]);
    } else {
      var a, b := lines[0], Join(lines[1..]);
      FirstNewlineAt(a, b);
      assert (a + "\n" + b)[..|a|] == a && (a + "\n" + b)[|a| + 1..] == b;
      SplitOfJoin(lines[1..]);
    }
  }

  lemma {:induction false} TerminatedSplit(t: string)
    ensures Terminated(Split(t)) == t + "\n" && AllOneLine(Split(t))
  {
    var k := FirstNewline(t);
    if k == |t| {
      assert OneLine(t);
      assert [t][1..] == [] && Terminated([t]) == t + "\n" + Terminated([]);
    } else {
      TerminatedSplit(t[k + 1..]);
      assert OneLine(t[..k]);
      var rest := Split(t[k + 1..]);
      assert ([t[..k]] + rest)[1..] == rest;
      assert t == t[..k] + "\n" + t[k + 1..];
    }
  }

  lemma {:induction false} TerminatedConcat(a: seq<string>, b: seq<string>)
    ensures Terminated(a + b) == Terminated(a) + Terminated(b)
  {
    if a == [] {
      assert a + b == b;
    } else {
      TerminatedConcat(a[1..], b);
      assert (a + b)[1..] == a[1..] + b;
    }
  }

  lemma {:induction false} JoinSnoc(lines: seq<string>, last: string)
    requires lines != []
    ensures Join(lines + [last]) == Join(lines) + "\n" + last
  {
    if |lines| == 1 {
      assert (lines + [last])[1..] == [last];
    } else {
      JoinSnoc(lines[1..], last);
      assert (lines + [last])[1..] == lines[1..] + [last];
    }
  }

  /** Trimming the newlines off joined lines is dropping the empty lines at the end. */
  lemma {:induction false} TrimNewlinesOfJoin(lines: seq<string>)
    requires AllOneLine(lines)
    ensures TrimNewlines(Join(lines)) == Join(DropEmpty(lines))
  {
    if |lines| == 1 {
      assert lines[0] == "" ==> DropEmpty(lines) == [];
      assert OneLine(lines[0]);
    } else if lines != [] {
      var before, last := lines[..|lines| - 1], lines[|lines| - 1];
      assert lines == before + [last];
      JoinSnoc(before, last);
      TrimNewlinesOfJoin(before);
      var s := Join(lines);
      if last == "" {
        assert s[..|s| - 1] == Join(before);
      } else {
        assert s[|s| - 1] == last[|last| - 1] && OneLine(last);
      }
    }
  }

  lemma {:induction false} TrimNewlinesDrops(s: string, n: nat)
    requires s != "" ==> s[|s| - 1] != '\n'
    ensures TrimNewlines(s + Newlines(n)) == s
  {
    if n == 0 {
      assert s + Newlines(0) == s;
    } else {
      var t := s + Newlines(n);
      assert t[|t| - 1] == '\n' && t[..|t| - 1] == s + Newlines(n - 1);
      TrimNewlinesDrops(s, n - 1);
    }
  }

  lemma {:induction false} TrimNewlinesSplits(s: string) returns (n: nat)
    ensures s == TrimNewlines(s) + Newlines(n)
    ensures TrimNewlines(s) != "" ==> TrimNewlines(s)[|TrimNewlines(s)| - 1] != '\n'
  {
    n := 0;
    if s != [] && s[|s| - 1] == '\n' {
      n := TrimNewlinesSplits(s[..|s| - 1]);
      assert Newlines(n + 1) == Newlines(n) + ['\n'];
      n := n + 1;
    }
  }

  /** All newlines at the end are dropped, and nothing else. */
  lemma TrimNewlinesExactly(s: string, t: string)
    ensures TrimNewlines(s) == t <==> (t != "" ==> t[|t| - 1] != '\n') && exists n :: s == t + Newlines(n)
  {
    hide TrimNewlines, Newlines;
    var n := TrimNewlinesSplits(s);
    if (t != "" ==> t[|t| - 1] != '\n') && exists n :: s == t + Newlines(n) {
      var m :| s == t + Newlines(m);
      TrimNewlinesDrops(t, m);
    }
  }

  lemma {:induction false} DropEmptyFacts(lines: seq<string>)
    ensures DropEmpty(lines) <= lines
    ensures DropEmpty(DropEmpty(lines)) == DropEmpty(lines) && DropEmpty(lines + [""]) == DropEmpty(lines)
    ensures DropEmpty(lines) != [] ==> DropEmpty(lines)[|DropEmpty(lines)| - 1] != ""
  {
    assert (lines + [""])[..|lines|] == lines;
    if lines != [] && lines[|lines| - 1] == "" {
      DropEmptyFacts(lines[..|lines| - 1]);
    }
  }

  lemma {:induction false} JoinIsNonempty(lines: seq<string>)
    requires lines != [] && lines[|lines| - 1] != ""
    ensures Join(lines) != ""
  {
    if |lines| > 1 {
      JoinIsNonempty(lines[1..]);
    }
  }

  // ---- Counting carriage returns --------------------------------------------------------------

  function Crs(s: string): nat {
    if s == [] then 0 else (if s[0] == '\r' then 1 else 0) + Crs(s[1..])
  }

  function CrsIn(lines: seq<string>): nat {
    if lines == [] then 0 else CrsIn(lines[..|lines| - 1]) + Crs(lines[|lines| - 1])
  }

  lemma {:induction false} CrsConcat(a: string, b: string)
    ensures Crs(a + b) == Crs(a) + Crs(b)
  {
    if a == [] {
      assert a + b == b;
    } else {
      CrsConcat(a[1..], b);
      assert (a + b)[1..] == a[1..] + b;
    }
  }

  lemma CrsSplitAt(s: string, k: nat)
    requires k <= |s|
    ensures Crs(s) == Crs(s[..k]) + Crs(s[k..])
  {
    assert s == s[..k] + s[k..];
    CrsConcat(s[..k], s[k..]);
  }

  lemma {:induction false} CrsInConcat(a: seq<string>, b: seq<string>)
    ensures CrsIn(a + b) == CrsIn(a) + CrsIn(b)
    decreases |b|
  {
    if b == [] {
      assert a + b == a;
    } else {
      var n := |b| - 1;
      CrsInConcat(a, b[..n]);
      assert (a + b)[..|a| + n] == a + b[..n];
    }
  }

  lemma {:induction false} CrsOfTrim(s: string)
    ensures Crs(TrimStart(s)) <= Crs(s) && Crs(TrimEnd(s)) <= Crs(s)
  {
    if s != [] {
      CrsOfTrim(s[1..]);
      CrsOfTrim(s[..|s| - 1]);
      CrsSplitAt(s, |s| - 1);
    }
  }

  /** Stripping loses a carriage return exactly when some line ends in one. */
  lemma {:induction false} CrsOfStripAll(lines: seq<string>)
    ensures CrsIn(StripAll(lines)) <= CrsIn(lines)
    ensures CrsIn(StripAll(lines)) == CrsIn(lines) <==> forall i :: 0 <= i < |lines| ==> StripCr(lines[i]) == lines[i]
  {
    if lines != [] {
      var n := |lines| - 1;
      CrsOfStripAll(lines[..n]);
      assert StripAll(lines)[..n] == StripAll(lines[..n]);
      CrsOfStrip(lines[n]);
    }
  }

  lemma CrsOfStrip(line: string)
    ensures Crs(StripCr(line)) <= Crs(line)
    ensures Crs(StripCr(line)) == Crs(line) <==> StripCr(line) == line
  {
    if line != [] {
      var n := |line| - 1;
      CrsSplitAt(line, n);
      assert line[n..] == [line[n]] && [line[n]][1..] == [];
    }
  }

  lemma {:induction false} CrsOfJoin(lines: seq<string>)
    ensures Crs(Join(lines)) == CrsIn(lines)
  {
    if |lines| == 1 {
      assert lines[..0] == [];
    } else if lines != [] {
      var before, last := lines[..|lines| - 1], lines[|lines| - 1];
      assert lines == before + [last];
      JoinSnoc(before, last);
      CrsConcat(Join(before), "\n");
      CrsConcat(Join(before) + "\n", last);
      CrsOfJoin(before);
      assert "\n"[1..] == [] && Crs("\n") == 0;
    }
  }

  lemma {:induction false} CrsOfLines(t: string)
    ensures CrsIn(Lines(t)) <= Crs(t)
  {
    if t != [] {
      var k := FirstNewline(t);
      if k == |t| {
        assert [t][..0] == [] && CrsIn([t]) == Crs(t);
      } else {
        CrsOfLines(t[k + 1..]);
        var first := StripCr(t[..k]);
        CrsInConcat([first], Lines(t[k + 1..]));
        assert [first][..0] == [] && CrsIn([first]) == Crs(first);
        CrsOfStrip(t[..k]);
        CrsSplitAt(t, k);
        CrsSplitAt(t[k..], 1);
        assert t[k..][1..] == t[k + 1..];
      }
    }
  }
}
