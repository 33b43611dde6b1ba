// assert_lines_match: which lines match which regular expressions, and the excerpt
// of the text that a failure shows.
module LinesMatch {
  import opened Basics
  import opened Text
  import opened Sorting

  // Whether re.match(r, line) finds a match, for a regular expression r.
  type Matcher = (string, string) -> bool

  // ---------- what is asserted ----------

  predicate Found(m: Matcher, r: string, lines: seq<string>) {
    exists i :: 0 <= i < |lines| && m(r, lines[i])
  }

  ghost predicate Satisfied(m: Matcher, lines: seq<string>, regexps: seq<string>, no: seq<string>) {
    && (forall r :: r in regexps ==> Found(m, r, lines))
    && (forall r :: r in no ==> !Found(m, r, lines))
  }

  // The regular expressions no line matches, in order and with repetitions.
  function Missing(m: Matcher, regexps: seq<string>, lines: seq<string>): seq<string> {
    if regexps == [] then []
    else
      (if Found(m, regexps[0], lines) then [] else [regexps[0]]) + Missing(m, regexps[1..], lines)
  }

  // Line i is the first that some regular expression matches.
  ghost predicate IsGood(m: Matcher, regexps: seq<string>, lines: seq<string>, i: int) {
    0 <= i < |lines| && exists r :: r in regexps && m(r, lines[i]) && !Found(m, r, lines[..i])
  }

  ghost predicate IsBad(m: Matcher, no: seq<string>, lines: seq<string>, i: int) {
    0 <= i < |lines| && AnyMatch(m, no, lines[i])
  }

  predicate AnyMatch(m: Matcher, regexps: seq<string>, line: string) {
    exists r :: r in regexps && m(r, line)
  }

  ghost function GoodLines(m: Matcher, regexps: seq<string>, lines: seq<string>): set<int> {
    set i | 0 <= i < |lines| && IsGood(m, regexps, lines, i)
  }

  ghost function BadLines(m: Matcher, no: seq<string>, lines: seq<string>): set<int> {
    set i | 0 <= i < |lines| && IsBad(m, no, lines, i)
  }

  // The regular expressions, in order, that the line does not match.
  function Unmatched(m: Matcher, regexps: seq<string>, line: string): seq<string> {
    if regexps == [] then []
    else (if m(regexps[0], line) then [] else [regexps[0]]) + Unmatched(m, regexps[1..], line)
  }

  lemma FoundSnoc(m: Matcher, r: string, lines: seq<string>, line: string)
    ensures Found(m, r, lines + [line]) <==> Found(m, r, lines) || m(r, line)
  {
    assert (lines + [line])[|lines|] == line;
    assert forall i :: 0 <= i < |lines| ==> (lines + [line])[i] == lines[i];
  }

  lemma {:induction false} MissingSnoc(m: Matcher, regexps: seq<string>, lines: seq<string>, line: string)
    ensures Unmatched(m, Missing(m, regexps, lines), line) == Missing(m, regexps, lines + [line])
  {
    if regexps != [] {
      FoundSnoc(m, regexps[0], lines, line);
      MissingSnoc(m, regexps[1..], lines, line);
      var rest := Missing(m, regexps[1..], lines);
      assert ([regexps[0]] + rest)[1..] == rest;
      assert [] + rest == rest;
    }
  }

  lemma {:induction false} MissingOfNone(m: Matcher, regexps: seq<string>)
    ensures Missing(m, regexps, []) == regexps
  {
    if regexps != [] {
      MissingOfNone(m, regexps[1..]);
    }
  }

  lemma {:induction false} MissingMembers(m: Matcher, regexps: seq<string>, lines: seq<string>, r: string)
    ensures r in Missing(m, regexps, lines) <==> r in regexps && !Found(m, r, lines)
  {
    if regexps != [] {
      MissingMembers(m, regexps[1..], lines, r);
      assert r in regexps <==> r == regexps[0] || r in regexps[1..];
    }
  }

  // ---------- the excerpt ----------

  datatype Row = Ellipsis | Line(lineno: nat)

  // The lines within two of a good or bad line, and the last five if a regular
  // expression is missing.
  ghost predicate IsShown(good: set<int>, bad: set<int>, missing: bool, n: nat, k: int) {
    (exists g :: g in good + bad && g - 2 <= k <= g + 2) || (missing && n - 5 <= k < n)
  }

  ghost function Shown(good: set<int>, bad: set<int>, missing: bool, n: nat): set<int> {
    set k | -5 <= k < n + 2 && IsShown(good, bad, missing, n, k)
  }

  // Rows of an excerpt for the lines from `from` to n: each shown line has a row, and
  // each maximal run of omitted lines has one ellipsis.
  ghost predicate Excerpt(rows: seq<Row>, from: nat, n: nat, show: set<int>)
    decreases |rows|
  {
    if rows == [] then from == n
    else
      from < n &&
      match rows[0]
      case Line(k) => k == from && k in show && Excerpt(rows[1..], from + 1, n, show)
      case Ellipsis => exists to: nat :: OmittedRun(from, to, n, show) && Excerpt(rows[1..], to, n, show)
  }

  ghost predicate OmittedRun(from: nat, to: nat, n: nat, show: set<int>) {
    && from < to <= n
    && (forall k :: from <= k < to ==> k !in show)
    && (to < n ==> to in show)
  }

  // The same rows, found by going through the lines from the front: an omitted line
  // that follows a shown line, or comes first, opens a run.
  ghost function RowsBefore(k: nat, show: set<int>): seq<Row> {
    if k == 0 then []
    else RowsBefore(k - 1, show) + RowOf(k - 1, show)
  }

  ghost function RowOf(k: nat, show: set<int>): seq<Row> {
    if k in show then [Line(k)] else if k == 0 || k - 1 in show then [Ellipsis] else []
  }

  lemma {:induction false} RowsSkip(from: nat, to: nat, show: set<int>)
    requires from < to
    requires from == 0 || from - 1 in show
    requires forall k :: from <= k < to ==> k !in show
    ensures RowsBefore(to, show) == RowsBefore(from, show) + [Ellipsis]
  {
    if to > from + 1 {
      RowsSkip(from, to - 1, show);
      assert RowOf(to - 1, show) == [];
    }
  }

  // An excerpt is determined by the shown lines: it is what the scan produces.
  lemma {:induction false} ExcerptUnique(rows: seq<Row>, from: nat, n: nat, show: set<int>)
    requires Excerpt(rows, from, n, show)
    requires from == 0 || from - 1 in show || from == n || from in show
    ensures from <= n && RowsBefore(n, show) == RowsBefore(from, show) + rows
    decreases |rows|
  {
    if rows == [] {
    } else if rows[0].Line? {
      ExcerptUnique(rows[1..], from + 1, n, show);
      assert rows == [Line(from)] + rows[1..];
      AppendAssociative(RowsBefore(from, show), [Line(from)], rows[1..]);
    } else {
      var to: nat :| OmittedRun(from, to, n, show) && Excerpt(rows[1..], to, n, show);
      RowsSkip(from, to, show);
      ExcerptUnique(rows[1..], to, n, show);
      assert rows == [Ellipsis] + rows[1..];
      AppendAssociative(RowsBefore(from, show), [Ellipsis], rows[1..]);
    }
  }

  lemma {:induction false} ExcerptExists(from: nat, n: nat, show: set<int>) returns (rows: seq<Row>)
    requires from <= n
    ensures Excerpt(rows, from, n, show)
    decreases n - from
  {
    if from == n {
      rows := [];
    } else if from in show {
      var rest := ExcerptExists(from + 1, n, show);
      rows := [Line(from)] + rest;
      assert rows[1..] == rest;
    } else {
      var to := from + 1;
      while to < n && to !in show
        invariant from < to <= n
        invariant forall k :: from <= k < to ==> k !in show
      {
        to := to + 1;
      }
      var rest := ExcerptExists(to, n, show);
      rows := [Ellipsis] + rest;
      assert rows[1..] == rest;
      assert OmittedRun(from, to, n, show);
    }
  }

  lemma ScanIsTheExcerpt(n: nat, show: set<int>, rows: seq<Row>)
    ensures Excerpt(rows, 0, n, show) <==> rows == RowsBefore(n, show)
  {
    var found := ExcerptExists(0, n, show);
    ExcerptUnique(found, 0, n, show);
    assert RowsBefore(0, show) + found == found;
    if Excerpt(rows, 0, n, show) {
      ExcerptUnique(rows, 0, n, show);
      assert RowsBefore(0, show) + rows == rows;
    }
  }

  // ---------- the message ----------

  const RED: string := "\U{001B}[31m"
  const GREEN: string := "\U{001B}[32m"
  const DEFAULT: string := "\U{001B}[0m"

  function Colored(code: string, text: string, colors: bool): string {
    if colors then code + text + DEFAULT else text
  }

  function Tag(k: int, good: set<int>, bad: set<int>, colors: bool): string {
    if k in bad then Colored(RED, "BAD ", colors)
    else if k in good then Colored(GREEN, "GOOD", colors)
    else "    "
  }

  // The tag tells bad lines from good ones and both from the lines around them; a
  // line that is both shows as bad.
  lemma TagTells(k: int, good: set<int>, bad: set<int>, colors: bool)
    ensures Tag(k, good, bad, colors) == Colored(RED, "BAD ", colors) <==> k in bad
    ensures Tag(k, good, bad, colors) == Colored(GREEN, "GOOD", colors) <==> k in good - bad
    ensures Tag(k, good, bad, colors) == "    " <==> k !in good + bad
  {
    if colors {
      assert |RED| == 5 && |GREEN| == 5;
      assert Colored(RED, "BAD ", colors)[3] == '1';
      assert Colored(GREEN, "GOOD", colors)[3] == '2';
      assert |Colored(RED, "BAD ", colors)| > 4 && |Colored(GREEN, "GOOD", colors)| > 4;
    } else {
      assert "BAD "[0] == 'B' && "GOOD"[0] == 'G' && "    "[0] == ' ';
    }
  }

  function Join(separator: string, parts: seq<string>): string {
    if parts == [] then ""
    else if |parts| == 1 then parts[0]
    else parts[0] + separator + Join(separator, parts[1..])
  }

  // Cutting a text at every newline, as the inverse of joining.
  function Cut(text: string): (parts: seq<string>)
    ensures parts != []
    decreases |text|
  {
    var k := Find(text, '\n', 0);
    if k == |text| then [text] else [text[..k]] + Cut(text[k + 1..])
  }

  lemma CutFirst(first: string, rest: string)
    requires forall j :: 0 <= j < |first| ==> first[j] != '\n'
    ensures Cut(first + "\n" + rest) == [first] + Cut(rest)
    ensures Cut(first) == [first]
  {
    var text := first + "\n" + rest;
    assert text[|first|] == '\n';
    assert forall j :: 0 <= j < |first| ==> text[j] == first[j];
    assert Find(text, '\n', 0) == |first|;
    assert text[..|first|] == first;
    assert text[|first| + 1..] == rest;
  }

  // The lines of all parts, one after the other.
  function CutAll(parts: seq<string>): seq<string> {
    if parts == [] then [] else Cut(parts[0]) + CutAll(parts[1..])
  }

  lemma {:induction false} CutJoined(a: string, b: string)
    ensures Cut(a + "\n" + b) == Cut(a) + Cut(b)
    decreases |a|
  {
    hide Cut;
    var k := Find(a, '\n', 0);
    if k == |a| {
      CutFirst(a, b);
    } else {
      var first, rest := a[..k], a[k + 1..];
      assert a == first + "\n" + rest;
      CutFirst(first, rest);
      CutJoined(rest, b);
      CutFirst(first, rest + "\n" + b);
      assert a + "\n" + b == first + "\n" + (rest + "\n" + b);
      AppendAssociative([first], Cut(rest), Cut(b));
    }
  }

  // A joined text shows the lines of all its parts.
  lemma {:induction false} JoinReadBack(parts: seq<string>)
    requires parts != []
    ensures Cut(Join("\n", parts)) == CutAll(parts)
  {
    hide Cut;
    if |parts| == 1 {
      assert parts[1..] == [];
      assert Cut(parts[0]) + [] == Cut(parts[0]);
    } else {
      JoinReadBack(parts[1..]);
      CutJoined(parts[0], Join("\n", parts[1..]));
    }
  }

  predicate Plain(text: string) {
    forall j :: 0 <= j < |text| ==> text[j] != '\n'
  }

  ghost predicate AllPlain(parts: seq<string>) {
    forall i :: 0 <= i < |parts| ==> Plain(parts[i])
  }

  lemma {:induction false} CutAllPlain(parts: seq<string>)
    requires AllPlain(parts)
    ensures CutAll(parts) == parts
  {
    hide Cut;
    if parts != [] {
      CutFirst(parts[0], "");
      assert forall i :: 0 <= i < |parts| - 1 ==> parts[1..][i] == parts[i + 1];
      CutAllPlain(parts[1..]);
    }
  }

  // Everything that goes into a failure message except the excerpt's rows.
  datatype Findings = Findings(lines: seq<string>, good: set<int>, bad: set<int>,
                               missing: seq<string>, colors: bool)

  ghost function Render(f: Findings, rows: seq<Row>): seq<string>
    requires forall i :: 0 <= i < |rows| && rows[i].Line? ==> rows[i].lineno < |f.lines|
  {
    seq(|rows|, i requires 0 <= i < |rows| =>
      match rows[i]
      case Ellipsis => "..."
      case Line(k) => Tag(k, f.good, f.bad, f.colors) + " " + f.lines[k])
  }

  ghost predicate InRange(rows: seq<Row>, n: nat) {
    forall i :: 0 <= i < |rows| && rows[i].Line? ==> rows[i].lineno < n
  }

  function MissingRows(missing: seq<string>, colors: bool): seq<string> {
    if missing == [] then []
    else [Colored(RED, "MISSING", colors) + " '" + missing[0] + "'"] + MissingRows(missing[1..], colors)
  }

  ghost function MessageRows(f: Findings, rows: seq<Row>): seq<string>
    requires InRange(rows, |f.lines|)
  {
    Render(f, rows)
    + (if f.bad != {} then ["unexpected lines in output"] else [])
    + MissingRows(f.missing, f.colors)
  }

  // ---------- failures are never silent ----------

  lemma {:induction false} JoinNotEmpty(separator: string, parts: seq<string>, i: nat)
    requires i < |parts| && parts[i] != "" && separator != ""
    ensures Join(separator, parts) != ""
  {
    if |parts| > 1 {
      assert |separator| > 0;
    }
  }

  // A failure always carries a non-empty message.
  lemma FailureMessageNotEmpty(f: Findings, rows: seq<Row>)
    requires InRange(rows, |f.lines|)
    requires f.bad != {} || f.missing != []
    ensures Join("\n", MessageRows(f, rows)) != ""
  {
    var all := MessageRows(f, rows);
    var i := |rows|;
    if f.bad != {} {
      assert all[i] == "unexpected lines in output";
      assert |all[i]| > 0;
    } else {
      var missing := MissingRows(f.missing, f.colors);
      assert all[i] == missing[0];
      assert |missing[0]| > 0;
    }
    JoinNotEmpty("\n", all, i);
  }

  // ---------- the message is its rows ----------

  lemma OneLineIsPlain(l: string)
    requires OneLine(l)
    ensures Plain(l)
  {
    NewlineBreaks();
    forall j | 0 <= j < |l|
      ensures l[j] != '\n'
    {
      assert l[j] in l;
    }
  }

  lemma TagIsPlain(k: int, good: set<int>, bad: set<int>, colors: bool)
    ensures Plain(Tag(k, good, bad, colors))
  {
  }

  lemma RenderIsPlain(f: Findings, rows: seq<Row>)
    requires InRange(rows, |f.lines|)
    requires forall i :: 0 <= i < |f.lines| ==> OneLine(f.lines[i])
    ensures AllPlain(Render(f, rows))
  {
    hide OneLine, Tag;
    forall i | 0 <= i < |rows|
      ensures Plain(Render(f, rows)[i])
    {
      if rows[i].Line? {
        var k := rows[i].lineno;
        OneLineIsPlain(f.lines[k]);
        TagIsPlain(k, f.good, f.bad, f.colors);
      }
    }
  }

  lemma {:induction false} MissingRowsArePlain(missing: seq<string>, colors: bool)
    requires AllPlain(missing)
    ensures AllPlain(MissingRows(missing, colors))
  {
    if missing != [] {
      assert forall i :: 0 <= i < |missing| - 1 ==> missing[1..][i] == missing[i + 1];
      MissingRowsArePlain(missing[1..], colors);
    }
  }

  // Read line by line, a failure message is its rows; only a missing regular expression
  // with a newline in it spreads over more than one line.
  lemma MessageShowsRows(f: Findings, rows: seq<Row>)
    requires InRange(rows, |f.lines|)
    requires forall i :: 0 <= i < |f.lines| ==> OneLine(f.lines[i])
    requires f.bad != {} || f.missing != []
    ensures
      var message := Join("\n", MessageRows(f, rows));
      && Cut(message) == CutAll(MessageRows(f, rows))
      && (AllPlain(f.missing) ==> Cut(message) == MessageRows(f, rows))
  {
    hide Cut, CutAll, Join, OneLine, Render, Plain;
    assert MessageRows(f, rows) != [] by {
      if f.missing != [] {
        assert MissingRows(f.missing, f.colors) != [];
      }
    }
    JoinReadBack(MessageRows(f, rows));
    if AllPlain(f.missing) {
      RenderIsPlain(f, rows);
      MissingRowsArePlain(f.missing, f.colors);
      NoticeIsPlain();
      CutAllPlain(MessageRows(f, rows));
    }
  }

  lemma NoticeIsPlain()
    ensures Plain("unexpected lines in output")
  {
  }

  lemma {:induction false} MissingIsPlain(m: Matcher, regexps: seq<string>, lines: seq<string>)
    requires AllPlain(regexps)
    ensures AllPlain(Missing(m, regexps, lines))
  {
    hide Found;
    if regexps != [] {
      assert forall i :: 0 <= i < |regexps| - 1 ==> regexps[1..][i] == regexps[i + 1];
      MissingIsPlain(m, regexps[1..], lines);
    }
  }

  // ---------- what a message tells ----------

  ghost function FindingsOf(m: Matcher, text: string, regexps: seq<string>, no: seq<string>, colors: bool): Findings {
    var lines := SplitLines(text);
    Findings(lines, GoodLines(m, regexps, lines), BadLines(m, no, lines), Missing(m, regexps, lines), colors)
  }

  ghost function ShownBy(f: Findings): set<int> {
    Shown(f.good, f.bad, f.missing != [], |f.lines|)
  }

  // The message is the rows of the excerpt, the notice and the missing regular
  // expressions, and is these lines when it is read line by line.
  ghost predicate IsMessage(message: string, f: Findings, rows: seq<Row>, regexps: seq<string>) {
    && InRange(rows, |f.lines|)
    && message == Join("\n", MessageRows(f, rows))
    && Cut(message) == CutAll(MessageRows(f, rows))
    && (AllPlain(regexps) ==> Cut(message) == MessageRows(f, rows) && IsLaidOut(Cut(message), f, rows))
  }

  // First the rows of the excerpt, then the notice, if some line is bad, and then the
  // missing regular expressions.
  ghost predicate IsLaidOut(lines: seq<string>, f: Findings, rows: seq<Row>)
    requires InRange(rows, |f.lines|)
  {
    var n := |rows| + if f.bad != {} then 1 else 0;
    && |lines| == n + |f.missing|
    && (forall i :: 0 <= i < |rows| ==> lines[i] == if rows[i].Line? then RowText(f, rows[i].lineno) else "...")
    && (f.bad != {} ==> lines[|rows|] == "unexpected lines in output")
    && forall i :: 0 <= i < |f.missing| ==> lines[n + i] == MissingText(f.missing[i], f.colors)
  }

  lemma RowsAreLaidOut(f: Findings, rows: seq<Row>)
    requires InRange(rows, |f.lines|)
    ensures IsLaidOut(MessageRows(f, rows), f, rows)
  {
    hide Render, MissingRows, MissingText, RowText;
    RenderAt(f, rows);
    MissingRowsAt(f.missing, f.colors);
  }

  // The rows of a message as they are printed, in colour or not.
  ghost function MissingText(r: string, colors: bool): string {
    if colors then "\U{001B}[31mMISSING\U{001B}[0m '" + r + "'" else "MISSING '" + r + "'"
  }

  ghost function BadText(line: string, colors: bool): string {
    if colors then "\U{001B}[31mBAD \U{001B}[0m " + line else "BAD  " + line
  }

  ghost function GoodText(line: string, colors: bool): string {
    if colors then "\U{001B}[32mGOOD\U{001B}[0m " + line else "GOOD " + line
  }

  ghost function ContextText(line: string): string {
    "     " + line
  }

  // The first character of a row that is not part of a colour.
  ghost function Kind(row: string): char {
    if |row| > 5 && row[0] == '\U{001B}' then row[5] else if row != "" then row[0] else '\n'
  }

  lemma TextKinds(text: string, colors: bool)
    ensures Kind(MissingText(text, colors)) == 'M'
    ensures Kind(BadText(text, colors)) == 'B' && Kind(GoodText(text, colors)) == 'G'
    ensures Kind(ContextText(text)) == ' '
    ensures Kind("...") == '.' && Kind("unexpected lines in output") == 'u'
  {
  }

  lemma TextsDiffer(a: string, b: string, colors: bool)
    ensures MissingText(a, colors) == MissingText(b, colors) ==> a == b
    ensures BadText(a, colors) == BadText(b, colors) ==> a == b
    ensures GoodText(a, colors) == GoodText(b, colors) ==> a == b
    ensures ContextText(a) == ContextText(b) ==> a == b
  {
    var n := if colors then 18 else 9;
    assert MissingText(a, colors)[n..][..|a|] == a && |MissingText(a, colors)| == n + |a| + 1;
    assert MissingText(b, colors)[n..][..|b|] == b && |MissingText(b, colors)| == n + |b| + 1;
    var k := if colors then 14 else 5;
    assert BadText(a, colors)[k..] == a && BadText(b, colors)[k..] == b;
    assert GoodText(a, colors)[k..] == a && GoodText(b, colors)[k..] == b;
    assert ContextText(a)[5..] == a && ContextText(b)[5..] == b;
  }

  lemma MissingTextIs(r: string, colors: bool)
    ensures Colored(RED, "MISSING", colors) + " '" + r + "'" == MissingText(r, colors)
  {
    assert RED + "MISSING" + DEFAULT + " '" == "\U{001B}[31mMISSING\U{001B}[0m '";
  }

  lemma {:induction false} MissingRowsAt(missing: seq<string>, colors: bool)
    ensures |MissingRows(missing, colors)| == |missing|
    ensures forall i :: 0 <= i < |missing| ==> MissingRows(missing, colors)[i] == MissingText(missing[i], colors)
  {
    hide Colored, MissingText;
    if missing != [] {
      MissingRowsAt(missing[1..], colors);
      MissingTextIs(missing[0], colors);
    }
  }

  ghost function RowText(f: Findings, k: nat): string
    requires k < |f.lines|
  {
    if k in f.bad then BadText(f.lines[k], f.colors)
    else if k in f.good then GoodText(f.lines[k], f.colors)
    else ContextText(f.lines[k])
  }

  lemma MarkedTexts(line: string, colors: bool)
    ensures Colored(RED, "BAD ", colors) + " " + line == BadText(line, colors)
    ensures Colored(GREEN, "GOOD", colors) + " " + line == GoodText(line, colors)
    ensures "    " + " " + line == ContextText(line)
  {
    assert "    " + " " == "     ";
  }

  lemma RenderAt(f: Findings, rows: seq<Row>)
    requires InRange(rows, |f.lines|)
    ensures |Render(f, rows)| == |rows|
    ensures forall i :: 0 <= i < |rows| ==>
      Render(f, rows)[i] == if rows[i].Line? then RowText(f, rows[i].lineno) else "..."
  {
    hide Colored, BadText, GoodText, ContextText;
    forall i | 0 <= i < |rows| && rows[i].Line?
      ensures Render(f, rows)[i] == RowText(f, rows[i].lineno)
    {
      MarkedTexts(f.lines[rows[i].lineno], f.colors);
    }
  }

  // A regular expression is reported exactly if it is missing, and the notice is there
  // exactly if a line is bad.
  lemma MissingIsTold(f: Findings, rows: seq<Row>, r: string)
    requires InRange(rows, |f.lines|)
    ensures MissingText(r, f.colors) in MessageRows(f, rows) <==> r in f.missing
    ensures "unexpected lines in output" in MessageRows(f, rows) <==> f.bad != {}
  {
    hide Render, MissingRows, MissingText, BadText, GoodText, ContextText, Kind;
    RenderAt(f, rows);
    MissingRowsAt(f.missing, f.colors);
    TextKinds(r, f.colors);
    forall i | 0 <= i < |rows|
      ensures Kind(Render(f, rows)[i]) in {'B', 'G', ' ', '.'}
    {
      if rows[i].Line? {
        TextKinds(f.lines[rows[i].lineno], f.colors);
      }
    }
    forall i | 0 <= i < |f.missing|
      ensures Kind(MissingRows(f.missing, f.colors)[i]) == 'M'
      ensures MissingRows(f.missing, f.colors)[i] == MissingText(r, f.colors) ==> f.missing[i] == r
    {
      TextKinds(f.missing[i], f.colors);
      TextsDiffer(f.missing[i], r, f.colors);
    }
    if r in f.missing {
      var i :| 0 <= i < |f.missing| && f.missing[i] == r;
      assert MissingRows(f.missing, f.colors)[i] in MissingRows(f.missing, f.colors);
    }
  }

  // Row i is marked in one of the three ways exactly if its line is of that kind.
  lemma RowIsTold(f: Findings, rows: seq<Row>, i: nat, t: string)
    requires InRange(rows, |f.lines|) && i < |rows|
    ensures
      var text := if rows[i].Line? then RowText(f, rows[i].lineno) else "...";
      var same := rows[i].Line? && f.lines[rows[i].lineno] == t;
      && (text == BadText(t, f.colors) <==> same && rows[i].lineno in f.bad)
      && (text == GoodText(t, f.colors) <==> same && rows[i].lineno in f.good - f.bad)
      && (text == ContextText(t) <==> same && rows[i].lineno !in f.good + f.bad)
  {
    hide BadText, GoodText, ContextText, Kind;
    TextKinds(t, f.colors);
    if rows[i].Line? {
      TextKinds(f.lines[rows[i].lineno], f.colors);
      TextsDiffer(f.lines[rows[i].lineno], t, f.colors);
    }
  }

  // Such a row can only be a row of the excerpt.
  lemma OnlyRendered(f: Findings, rows: seq<Row>, text: string)
    requires InRange(rows, |f.lines|)
    requires Kind(text) != 'M' && Kind(text) != 'u'
    ensures text in MessageRows(f, rows) <==> text in Render(f, rows)
  {
    hide Render, MissingRows, MissingText, Kind;
    MissingRowsAt(f.missing, f.colors);
    TextKinds("", f.colors);
    forall i | 0 <= i < |f.missing|
      ensures MissingRows(f.missing, f.colors)[i] != text
    {
      TextKinds(f.missing[i], f.colors);
    }
  }

  // Each of the three marks stands before exactly those lines of the excerpt that it is
  // meant for.
  lemma LinesAreTold(f: Findings, rows: seq<Row>, t: string)
    requires InRange(rows, |f.lines|)
    ensures BadText(t, f.colors) in MessageRows(f, rows) <==>
      exists k :: Reads(f, rows, k, t) && k in f.bad
    ensures GoodText(t, f.colors) in MessageRows(f, rows) <==>
      exists k :: Reads(f, rows, k, t) && k in f.good - f.bad
    ensures ContextText(t) in MessageRows(f, rows) <==>
      exists k :: Reads(f, rows, k, t) && k !in f.good + f.bad
  {
    hide Render, MessageRows, BadText, GoodText, ContextText, Kind, RowText;
    TextKinds(t, f.colors);
    OnlyRendered(f, rows, BadText(t, f.colors));
    OnlyRendered(f, rows, GoodText(t, f.colors));
    OnlyRendered(f, rows, ContextText(t));
    InRenderIff(f, rows, t, BadText(t, f.colors), f.bad);
    InRenderIff(f, rows, t, GoodText(t, f.colors), f.good - f.bad);
    ContextInRenderIff(f, rows, t);
  }

  // `marked` are the lines that are printed like this.
  lemma InRenderIff(f: Findings, rows: seq<Row>, t: string, text: string, marked: set<int>)
    requires InRange(rows, |f.lines|)
    requires
      || (text == BadText(t, f.colors) && marked == f.bad)
      || (text == GoodText(t, f.colors) && marked == f.good - f.bad)
    ensures text in Render(f, rows) <==> exists k :: Reads(f, rows, k, t) && k in marked
  {
    hide Render, RowText, BadText, GoodText, ContextText;
    RenderAt(f, rows);
    forall i | 0 <= i < |rows|
      ensures Render(f, rows)[i] == text <==>
        rows[i].Line? && f.lines[rows[i].lineno] == t && rows[i].lineno in marked
    {
      RowIsTold(f, rows, i, t);
    }
    if text in Render(f, rows) {
      var i :| 0 <= i < |rows| && Render(f, rows)[i] == text;
      assert Reads(f, rows, rows[i].lineno, t);
    }
    if k :| Reads(f, rows, k, t) && k in marked {
      var i :| 0 <= i < |rows| && rows[i] == Line(k);
      assert Render(f, rows)[i] == text;
    }
  }

  lemma ContextInRenderIff(f: Findings, rows: seq<Row>, t: string)
    requires InRange(rows, |f.lines|)
    ensures ContextText(t) in Render(f, rows) <==> exists k :: Reads(f, rows, k, t) && k !in f.good + f.bad
  {
    hide Render, RowText, BadText, GoodText, ContextText;
    RenderAt(f, rows);
    forall i | 0 <= i < |rows|
      ensures Render(f, rows)[i] == ContextText(t) <==>
        rows[i].Line? && f.lines[rows[i].lineno] == t && rows[i].lineno !in f.good + f.bad
    {
      RowIsTold(f, rows, i, t);
    }
    if ContextText(t) in Render(f, rows) {
      var i :| 0 <= i < |rows| && Render(f, rows)[i] == ContextText(t);
      assert Reads(f, rows, rows[i].lineno, t);
    }
    if k :| Reads(f, rows, k, t) && k !in f.good + f.bad {
      var i :| 0 <= i < |rows| && rows[i] == Line(k);
      assert Render(f, rows)[i] == ContextText(t);
    }
  }

  // Line k has a row in the excerpt and reads t.
  ghost predicate Reads(f: Findings, rows: seq<Row>, k: int, t: string) {
    0 <= k < |f.lines| && f.lines[k] == t && Line(k) in rows
  }

  // Everything a failure message says, read line by line: which regular expressions no
  // line matches, whether some line is unexpected, and for every text whether a line
  // with this text is bad, is good, or is shown around them.
  ghost predicate Tells(message: string, m: Matcher, lines: seq<string>, regexps: seq<string>, no: seq<string>,
                        colors: bool)
  {
    && (forall r :: MissingText(r, colors) in Cut(message) <==> r in regexps && !Found(m, r, lines))
    && ("unexpected lines in output" in Cut(message) <==> exists r :: r in no && Found(m, r, lines))
    && (forall t :: BadText(t, colors) in Cut(message) <==> t in lines && AnyMatch(m, no, t))
    && (forall t :: GoodText(t, colors) in Cut(message) <==>
         exists k :: GoodLine(m, lines, regexps, no, k, t))
    && (forall t :: ContextText(t) in Cut(message) <==> exists k :: ContextLine(m, lines, regexps, no, k, t))
  }

  // Line k reads t, is the first that some regular expression matches, and is not bad.
  ghost predicate GoodLine(m: Matcher, lines: seq<string>, regexps: seq<string>, no: seq<string>, k: int, t: string) {
    0 <= k < |lines| && lines[k] == t && IsGood(m, regexps, lines, k) && !AnyMatch(m, no, t)
  }

  ghost predicate ContextLine(m: Matcher, lines: seq<string>, regexps: seq<string>, no: seq<string>, k: int,
                              t: string)
  {
    0 <= k < |lines| && lines[k] == t && IsContext(m, lines, regexps, no, k)
  }

  // Neither good nor bad, but at most two lines away from a line that is, or one of the
  // last five lines when some regular expression is missing.
  ghost predicate IsContext(m: Matcher, lines: seq<string>, regexps: seq<string>, no: seq<string>, k: int) {
    && 0 <= k < |lines|
    && !IsMarked(m, lines, regexps, no, k)
    && (|| (exists g :: IsMarked(m, lines, regexps, no, g) && (k == g - 2 || k == g - 1 || k == g + 1 || k == g + 2))
        || (k >= |lines| - 5 && exists r :: r in regexps && !Found(m, r, lines)))
  }

  ghost predicate IsMarked(m: Matcher, lines: seq<string>, regexps: seq<string>, no: seq<string>, k: int) {
    IsGood(m, regexps, lines, k) || IsBad(m, no, lines, k)
  }

  // An excerpt has a row for exactly the shown lines.
  lemma {:induction false} ShownIsListed(rows: seq<Row>, from: nat, n: nat, show: set<int>, k: nat)
    requires Excerpt(rows, from, n, show)
    ensures Line(k) in rows <==> from <= k < n && k in show
    decreases |rows|
  {
    if rows != [] {
      if rows[0].Line? {
        ShownIsListed(rows[1..], from + 1, n, show, k);
      } else {
        var to: nat :| OmittedRun(from, to, n, show) && Excerpt(rows[1..], to, n, show);
        ShownIsListed(rows[1..], to, n, show, k);
      }
      assert Line(k) in rows <==> rows[0] == Line(k) || Line(k) in rows[1..];
    }
  }

  lemma MessageTells(m: Matcher, text: string, regexps: seq<string>, no: seq<string>, colors: bool, rows: seq<Row>,
                     message: string)
    requires AllPlain(regexps)
    requires
      var f := FindingsOf(m, text, regexps, no, colors);
      Excerpt(rows, 0, |f.lines|, ShownBy(f)) && IsMessage(message, f, rows, regexps)
    ensures Tells(message, m, SplitLines(text), regexps, no, colors)
  {
    hide Excerpt, MessageRows, Cut, CutAll, Join, Missing, IsGood, AnyMatch, Found, MissingText, BadText, GoodText,
      ContextText, AllPlain, SplitLines;
    var lines := SplitLines(text);
    var f := FindingsOf(m, text, regexps, no, colors);
    forall r
      ensures MissingText(r, colors) in Cut(message) <==> r in regexps && !Found(m, r, lines)
    {
      MissingIsTold(f, rows, r);
      MissingMembers(m, regexps, lines, r);
    }
    MissingIsTold(f, rows, "");
    BadLinesIff(m, no, lines);
    forall t
      ensures BadText(t, colors) in Cut(message) <==> t in lines && AnyMatch(m, no, t)
      ensures GoodText(t, colors) in Cut(message) <==>
        exists k :: GoodLine(m, lines, regexps, no, k, t)
      ensures ContextText(t) in Cut(message) <==> exists k :: ContextLine(m, lines, regexps, no, k, t)
    {
      LinesAreTold(f, rows, t);
      TextIsShown(m, text, regexps, no, colors, rows, t);
    }
  }

  lemma BadLinesIff(m: Matcher, no: seq<string>, lines: seq<string>)
    ensures BadLines(m, no, lines) != {} <==> exists r :: r in no && Found(m, r, lines)
  {
    SatisfiedIff(m, lines, [], no);
  }

  // The lines of the excerpt that read t, in terms of the assertion.
  lemma TextIsShown(m: Matcher, text: string, regexps: seq<string>, no: seq<string>, colors: bool, rows: seq<Row>,
                    t: string)
    requires
      var f := FindingsOf(m, text, regexps, no, colors);
      Excerpt(rows, 0, |f.lines|, ShownBy(f))
    ensures
      var f, lines := FindingsOf(m, text, regexps, no, colors), SplitLines(text);
      && ((exists k :: Reads(f, rows, k, t) && k in f.bad) <==> t in lines && AnyMatch(m, no, t))
      && ((exists k :: Reads(f, rows, k, t) && k in f.good - f.bad) <==>
           exists k :: GoodLine(m, lines, regexps, no, k, t))
      && ((exists k :: Reads(f, rows, k, t) && k !in f.good + f.bad) <==>
           exists k :: ContextLine(m, lines, regexps, no, k, t))
  {
    hide Excerpt, SplitLines, Missing, IsGood, AnyMatch, Found, IsShown, IsContext;
    var f, lines := FindingsOf(m, text, regexps, no, colors), SplitLines(text);
    forall k: int
      ensures BadLine(m, lines, no, k, t) <==> Reads(f, rows, k, t) && k in f.bad
      ensures GoodLine(m, lines, regexps, no, k, t) <==> Reads(f, rows, k, t) && k in f.good - f.bad
      ensures ContextLine(m, lines, regexps, no, k, t) <==> Reads(f, rows, k, t) && k !in f.good + f.bad
    {
      LineIsShown(m, text, regexps, no, colors, rows, t, k);
    }
    BadLineIff(m, lines, no, t);
  }

  ghost predicate BadLine(m: Matcher, lines: seq<string>, no: seq<string>, k: int, t: string) {
    0 <= k < |lines| && lines[k] == t && AnyMatch(m, no, t)
  }

  lemma BadLineIff(m: Matcher, lines: seq<string>, no: seq<string>, t: string)
    ensures t in lines && AnyMatch(m, no, t) <==> exists k :: BadLine(m, lines, no, k, t)
  {
    hide AnyMatch;
    if t in lines && AnyMatch(m, no, t) {
      var k :| 0 <= k < |lines| && lines[k] == t;
      assert BadLine(m, lines, no, k, t);
    }
  }

  lemma LineIsShown(m: Matcher, text: string, regexps: seq<string>, no: seq<string>, colors: bool, rows: seq<Row>,
                    t: string, k: int)
    requires
      var f := FindingsOf(m, text, regexps, no, colors);
      Excerpt(rows, 0, |f.lines|, ShownBy(f))
    ensures
      var f, lines := FindingsOf(m, text, regexps, no, colors), SplitLines(text);
      && (BadLine(m, lines, no, k, t) <==> Reads(f, rows, k, t) && k in f.bad)
      && (GoodLine(m, lines, regexps, no, k, t) <==> Reads(f, rows, k, t) && k in f.good - f.bad)
      && (ContextLine(m, lines, regexps, no, k, t) <==> Reads(f, rows, k, t) && k !in f.good + f.bad)
  {
    hide Excerpt, SplitLines, Missing, IsGood, AnyMatch, Found;
    var f, lines := FindingsOf(m, text, regexps, no, colors), SplitLines(text);
    if 0 <= k < |lines| {
      ShownIsListed(rows, 0, |lines|, ShownBy(f), k);
      MarkedIff(m, text, regexps, no, colors);
      MissingIff(m, regexps, lines);
      assert k in f.good + f.bad ==> IsShown(f.good, f.bad, f.missing != [], |lines|, k);
    }
  }

  lemma MarkedIff(m: Matcher, text: string, regexps: seq<string>, no: seq<string>, colors: bool)
    ensures
      var f := FindingsOf(m, text, regexps, no, colors);
      forall g :: g in f.good + f.bad <==> IsMarked(m, SplitLines(text), regexps, no, g)
  {
    hide SplitLines, Missing, AnyMatch, Found;
  }

  lemma MissingIff(m: Matcher, regexps: seq<string>, lines: seq<string>)
    ensures Missing(m, regexps, lines) != [] <==> exists r :: r in regexps && !Found(m, r, lines)
  {
    SatisfiedIff(m, lines, regexps, []);
  }

  // ---------- the procedure ----------

  datatype Verdict = Passed | Failed(message: string)

  method AssertLinesMatch(m: Matcher, text: string, regexps: seq<string>, no: seq<string>, colors: bool)
    returns (verdict: Verdict)
    ensures verdict.Passed? <==> Satisfied(m, SplitLines(text), regexps, no)
    ensures verdict.Failed? ==>
      var f := FindingsOf(m, text, regexps, no, colors);
      exists rows :: Excerpt(rows, 0, |f.lines|, ShownBy(f)) && IsMessage(verdict.message, f, rows, regexps)
    ensures verdict.Failed? ==> verdict.message != ""
    ensures verdict.Failed? && AllPlain(regexps) ==>
      Tells(verdict.message, m, SplitLines(text), regexps, no, colors)
  {
    hide Satisfied, Missing, IsGood, IsBad, Render, RowsBefore, IsShown, Excerpt, Join, IsMessage, Tells, AllPlain;
    var lines := SplitLines(text);
    var left, good, bad := Classify(m, lines, regexps, no);
    ghost var f := FindingsOf(m, text, regexps, no, colors);
    SatisfiedIff(m, lines, regexps, no);
    if left == [] && bad == {} {
      return Passed;
    }
    var show := Window(good, bad, left != [], |lines|);
    var msg := RenderWindow(lines, good, bad, show, colors, f);
    ghost var rows := RowsBefore(|lines|, show);
    ScanIsTheExcerpt(|lines|, show, rows);
    if bad != {} {
      msg := msg + ["unexpected lines in output"];
    }
    ghost var body := msg;
    var i := 0;
    while i < |left|
      invariant 0 <= i <= |left|
      invariant msg + MissingRows(left[i..], colors) == body + MissingRows(left, colors)
    {
      msg := msg + [Colored(RED, "MISSING", colors) + " '" + left[i] + "'"];
      i := i + 1;
    }
    assert msg == body + MissingRows(left, colors) by {
      assert left[|left|..] == [];
    }
    assert msg == MessageRows(f, rows);
    FailureTells(m, text, regexps, no, colors, rows);
    return Failed(Join("\n", msg));
  }

  lemma FailureTells(m: Matcher, text: string, regexps: seq<string>, no: seq<string>, colors: bool, rows: seq<Row>)
    requires
      var f := FindingsOf(m, text, regexps, no, colors);
      && InRange(rows, |f.lines|) && (f.bad != {} || f.missing != [])
      && Excerpt(rows, 0, |f.lines|, ShownBy(f))
    ensures
      var f := FindingsOf(m, text, regexps, no, colors);
      var message := Join("\n", MessageRows(f, rows));
      && IsMessage(message, f, rows, regexps) && message != ""
      && (AllPlain(regexps) ==> Tells(message, m, SplitLines(text), regexps, no, colors))
  {
    hide IsMessage, Tells, AllPlain, Join, MessageRows, Excerpt, FindingsOf, InRange;
    JoinedIsMessage(m, text, regexps, no, colors, rows);
    if AllPlain(regexps) {
      var f := FindingsOf(m, text, regexps, no, colors);
      MessageTells(m, text, regexps, no, colors, rows, Join("\n", MessageRows(f, rows)));
    }
  }

  lemma JoinedIsMessage(m: Matcher, text: string, regexps: seq<string>, no: seq<string>, colors: bool, rows: seq<Row>)
    requires
      var f := FindingsOf(m, text, regexps, no, colors);
      InRange(rows, |f.lines|) && (f.bad != {} || f.missing != [])
    ensures
      var f := FindingsOf(m, text, regexps, no, colors);
      var message := Join("\n", MessageRows(f, rows));
      IsMessage(message, f, rows, regexps) && message != ""
  {
    hide Missing, GoodLines, BadLines, Render, MessageRows, Join, Cut, CutAll, AllPlain, OneLine, InRange, IsLaidOut;
    var f := FindingsOf(m, text, regexps, no, colors);
    FailureMessageNotEmpty(f, rows);
    SplitLinesAreUnbroken(text);
    MessageShowsRows(f, rows);
    if AllPlain(regexps) {
      MissingIsPlain(m, regexps, f.lines);
      RowsAreLaidOut(f, rows);
    }
  }

  // The loop over the lines: it drops each regular expression at the first line that
  // matches it, and remembers good and bad lines.
  method Classify(m: Matcher, lines: seq<string>, regexps: seq<string>, no: seq<string>)
    returns (left: seq<string>, good: set<int>, bad: set<int>)
    ensures left == Missing(m, regexps, lines)
    ensures good == GoodLines(m, regexps, lines)
    ensures bad == BadLines(m, no, lines)
  {
    hide IsGood, AnyMatch, Missing, Unmatched;
    left, good, bad := regexps, {}, {};
    MissingOfNone(m, regexps);
    for i := 0 to |lines|
      invariant left == Missing(m, regexps, lines[..i])
      invariant forall k :: k in good <==> 0 <= k < i && IsGood(m, regexps, lines, k)
      invariant forall k :: k in bad <==> 0 <= k < i && IsBad(m, no, lines, k)
    {
      var line := lines[i];
      assert lines[..i + 1] == lines[..i] + [line];
      GoodIffSomeLeftMatches(m, regexps, lines, i);
      MissingSnoc(m, regexps, lines[..i], line);
      if AnyMatch(m, left, line) {
        good := good + {i};
        left := Unmatched(m, left, line);
      } else {
        UnmatchedOfNone(m, left, line);
      }
      if AnyMatch(m, no, line) {
        bad := bad + {i};
      }
    }
    assert lines[..|lines|] == lines;
  }

  lemma GoodIffSomeLeftMatches(m: Matcher, regexps: seq<string>, lines: seq<string>, i: nat)
    requires i < |lines|
    ensures IsGood(m, regexps, lines, i) <==> AnyMatch(m, Missing(m, regexps, lines[..i]), lines[i])
  {
    forall r
      ensures r in Missing(m, regexps, lines[..i]) <==> r in regexps && !Found(m, r, lines[..i])
    {
      MissingMembers(m, regexps, lines[..i], r);
    }
  }

  lemma {:induction false} UnmatchedOfNone(m: Matcher, regexps: seq<string>, line: string)
    requires !AnyMatch(m, regexps, line)
    ensures Unmatched(m, regexps, line) == regexps
  {
    if regexps != [] {
      assert regexps[0] in regexps;
      UnmatchedOfNone(m, regexps[1..], line);
    }
  }

  lemma SatisfiedIff(m: Matcher, lines: seq<string>, regexps: seq<string>, no: seq<string>)
    ensures Satisfied(m, lines, regexps, no) <==> Missing(m, regexps, lines) == [] && BadLines(m, no, lines) == {}
  {
    forall r
      ensures r in Missing(m, regexps, lines) <==> r in regexps && !Found(m, r, lines)
    {
      MissingMembers(m, regexps, lines, r);
    }
    if Missing(m, regexps, lines) != [] {
      assert Missing(m, regexps, lines)[0] in Missing(m, regexps, lines);
    }
    forall r | r in no && Found(m, r, lines)
      ensures BadLines(m, no, lines) != {}
    {
      var i :| 0 <= i < |lines| && m(r, lines[i]);
      assert IsBad(m, no, lines, i);
      assert i in BadLines(m, no, lines);
    }
    if BadLines(m, no, lines) != {} {
      HasMember(BadLines(m, no, lines));
      var i :| i in BadLines(m, no, lines);
      assert IsBad(m, no, lines, i);
    }
  }

  // show.add and show.update.
  method Window(good: set<int>, bad: set<int>, missing: bool, n: nat) returns (show: set<int>)
    requires forall k :: k in good + bad ==> 0 <= k < n
    ensures show == Shown(good, bad, missing, n)
  {
    show := {};
    var todo := good + bad;
    while todo != {}
      invariant todo <= good + bad
      invariant forall k :: k in show <==> exists g :: g in good + bad - todo && g - 2 <= k <= g + 2
      decreases |todo|
    {
      HasMember(todo);
      var lineno :| lineno in todo;
      ghost var before := show;
      for offset := -2 to 3
        invariant forall k :: k in show <==> k in before || lineno - 2 <= k < lineno + offset
      {
        show := show + {lineno + offset};
      }
      ghost var done := good + bad - todo;
      todo := todo - {lineno};
      assert good + bad - todo == done + {lineno};
    }
    assert good + bad - todo == good + bad;
    if missing {
      ghost var before := show;
      for k := n as int - 5 to n
        invariant forall j :: j in show <==> j in before || n - 5 <= j < k
      {
        show := show + {k};
      }
    }
  }

  // The loop over sorted(show).
  method RenderWindow(lines: seq<string>, good: set<int>, bad: set<int>, show: set<int>, colors: bool,
                      ghost f: Findings)
    returns (msg: seq<string>)
    requires f.lines == lines && f.good == good && f.bad == bad && f.colors == colors
    ensures InRange(RowsBefore(|lines|, show), |lines|)
    ensures msg == Render(f, RowsBefore(|lines|, show))
  {
    hide RowsBefore, Render, Tag, Sorted, Ascending;
    RowsInRange(|lines|, show);
    NothingRendered(f, show);
    msg := [];
    var last := -1;
    var order := Sorted(show);
    for i := 0 to |order|
      invariant -1 <= last < |lines|
      invariant last == -1 || last in show
      invariant forall k :: k in order[..i] && 0 <= k < |lines| ==> k <= last
      invariant last >= 0 ==> last in order[..i]
      invariant msg == RenderBefore(f, last + 1, show)
    {
      var lineno := order[i];
      assert order[..i + 1] == order[..i] + [lineno];
      if 0 <= lineno < |lines| {
        AscendingNext(order, i, last, show);
        RenderNext(f, last, lineno, show);
        if lineno != last + 1 {
          msg := msg + ["..."];
        }
        last := lineno;
        msg := msg + [Tag(lineno, good, bad, colors) + " " + lines[lineno]];
      }
    }
    assert order[..|order|] == order;
    RenderEnd(f, last, show);
    if last != |lines| - 1 {
      msg := msg + ["..."];
    }
  }

  lemma AscendingNext(order: seq<int>, i: nat, last: int, show: set<int>)
    requires i < |order| && order == Sorted(show)
    requires last >= -1 && (last >= 0 ==> last in order[..i])
    requires 0 <= order[i]
    ensures last < order[i] && order[i] in show
    ensures forall k :: k in show && last < k < order[i] ==> k in order[..i]
  {
  }

  lemma {:induction false} RowsInRange(k: nat, show: set<int>)
    ensures InRange(RowsBefore(k, show), k)
  {
    if k > 0 {
      RowsInRange(k - 1, show);
    }
  }

  // The rendered rows of the first k lines.
  ghost function RenderBefore(f: Findings, k: nat, show: set<int>): seq<string>
    requires k <= |f.lines|
  {
    RowsInRange(k, show);
    Render(f, RowsBefore(k, show))
  }

  lemma NothingRendered(f: Findings, show: set<int>)
    ensures RenderBefore(f, 0, show) == []
  {
  }

  lemma RowsNext(last: int, next: int, show: set<int>)
    requires -1 <= last < next
    requires (last == -1 || last in show) && next in show
    requires forall k :: last < k < next ==> k !in show
    ensures RowsBefore(next + 1, show) ==
      RowsBefore(last + 1, show) + (if next != last + 1 then [Ellipsis] else []) + [Line(next)]
  {
    if next != last + 1 {
      RowsSkip(last + 1, next, show);
    } else {
      assert RowsBefore(next, show) + [] == RowsBefore(next, show);
    }
  }

  lemma RenderAppend(f: Findings, rows: seq<Row>, more: seq<Row>)
    requires InRange(rows + more, |f.lines|) && InRange(rows, |f.lines|) && InRange(more, |f.lines|)
    ensures Render(f, rows + more) == Render(f, rows) + Render(f, more)
  {
  }

  lemma RenderShort(f: Findings)
    ensures Render(f, []) == [] && Render(f, [Ellipsis]) == ["..."]
    ensures forall k: nat :: k < |f.lines| ==>
      Render(f, [Line(k)]) == [Tag(k, f.good, f.bad, f.colors) + " " + f.lines[k]]
  {
    hide Tag;
  }

  // From a shown line to the next one: an ellipsis iff some line lies between.
  lemma RenderNext(f: Findings, last: int, next: int, show: set<int>)
    requires -1 <= last < next < |f.lines|
    requires (last == -1 || last in show) && next in show
    requires forall k :: last < k < next ==> k !in show
    ensures RenderBefore(f, next + 1, show) ==
      RenderBefore(f, last + 1, show) + (if next != last + 1 then ["..."] else [])
      + [Tag(next, f.good, f.bad, f.colors) + " " + f.lines[next]]
  {
    hide RowsBefore, Tag, Render;
    var before := RowsBefore(last + 1, show);
    var gap: seq<Row> := if next != last + 1 then [Ellipsis] else [];
    RowsInRange(last + 1, show);
    RowsInRange(next + 1, show);
    RowsNext(last, next, show);
    RenderAppend(f, before, gap);
    RenderAppend(f, before + gap, [Line(next)]);
    RenderShort(f);
  }

  lemma RenderEnd(f: Findings, last: int, show: set<int>)
    requires -1 <= last < |f.lines| && (last == -1 || last in show)
    requires forall k :: last < k < |f.lines| ==> k !in show
    ensures RenderBefore(f, |f.lines|, show) ==
      RenderBefore(f, last + 1, show) + if last != |f.lines| - 1 then ["..."] else []
  {
    RowsInRange(last + 1, show);
    RowsInRange(|f.lines|, show);
    if last != |f.lines| - 1 {
      RowsSkip(last + 1, |f.lines|, show);
    }
  }
}
