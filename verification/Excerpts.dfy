// What a failure of assert_lines_match shows: facts about every excerpt.
module Excerpts {
  import opened Basics
  import opened Sorting
  import opened LinesMatch

  // ---------- which lines, which ellipses ----------

  function LineNumbers(rows: seq<Row>): seq<int> {
    if rows == [] then []
    else
      var last := rows[|rows| - 1];
      LineNumbers(rows[..|rows| - 1]) + if last.Line? then [last.lineno] else []
  }

  function Ellipses(rows: seq<Row>): nat {
    if rows == [] then 0
    else Ellipses(rows[..|rows| - 1]) + if rows[|rows| - 1].Ellipsis? then 1 else 0
  }

  ghost function ShownBefore(k: nat, show: set<int>): set<int> {
    set x | 0 <= x < k && x in show
  }

  // Line x is the first of a maximal omitted run.
  predicate StartsRun(x: int, show: set<int>) {
    x !in show && (x == 0 || x - 1 in show)
  }

  ghost function RunStarts(k: nat, show: set<int>): set<int> {
    set x | 0 <= x < k && StartsRun(x, show)
  }

  lemma SnocRow(rows: seq<Row>, row: Row)
    ensures LineNumbers(rows + [row]) == LineNumbers(rows) + if row.Line? then [row.lineno] else []
    ensures Ellipses(rows + [row]) == Ellipses(rows) + if row.Ellipsis? then 1 else 0
  {
    assert (rows + [row])[..|rows|] == rows;
  }

  lemma NothingBefore(show: set<int>)
    ensures LineNumbers(RowsBefore(0, show)) == [] && Ellipses(RowsBefore(0, show)) == 0
    ensures Ascending([])
    ensures ShownBefore(0, show) == {} && RunStarts(0, show) == {}
  {
  }

  lemma AscendingSnoc(s: seq<int>, x: int)
    requires Ascending(s) && forall y :: y in s ==> y < x
    ensures Ascending(s + [x])
  {
    assert forall i :: 0 <= i < |s| ==> s[i] in s;
  }

  lemma {:induction false} ScanLists(k: nat, show: set<int>)
    ensures Ascending(LineNumbers(RowsBefore(k, show)))
    ensures forall x :: x in LineNumbers(RowsBefore(k, show)) <==> x in ShownBefore(k, show)
    ensures |LineNumbers(RowsBefore(k, show))| == |ShownBefore(k, show)|
    decreases k
  {
    hide LineNumbers, RowsBefore, Ascending, ShownBefore;
    if k > 0 {
      ScanLists(k - 1, show);
      ShownBeforeNext(k - 1, show);
      LineNumbersNext(k - 1, show);
      AscendingSnoc(LineNumbers(RowsBefore(k - 1, show)), k - 1);
      assert LineNumbers(RowsBefore(k - 1, show)) + [] == LineNumbers(RowsBefore(k - 1, show));
    } else {
      NothingBefore(show);
    }
  }

  lemma LineNumbersNext(k: nat, show: set<int>)
    ensures LineNumbers(RowsBefore(k + 1, show)) ==
      LineNumbers(RowsBefore(k, show)) + if k in show then [k as int] else []
  {
    hide LineNumbers;
    var rows := RowsBefore(k, show);
    if RowOf(k, show) == [] {
      assert rows + [] == rows;
    } else {
      SnocRow(rows, RowOf(k, show)[0]);
    }
  }

  lemma ShownBeforeNext(k: nat, show: set<int>)
    ensures ShownBefore(k + 1, show) == ShownBefore(k, show) + if k in show then {k as int} else {}
    ensures |ShownBefore(k + 1, show)| == |ShownBefore(k, show)| + if k in show then 1 else 0
    ensures forall x :: x in ShownBefore(k, show) ==> x < k
  {
    assert ShownBefore(k + 1, show) == ShownBefore(k, show) + if k in show then {k as int} else {};
  }

  lemma {:induction false} ScanCountsRuns(k: nat, show: set<int>)
    ensures Ellipses(RowsBefore(k, show)) == |RunStarts(k, show)|
    decreases k
  {
    hide Ellipses, RowsBefore, RunStarts;
    if k > 0 {
      ScanCountsRuns(k - 1, show);
      EllipsesNext(k - 1, show);
      RunStartsNext(k - 1, show);
    } else {
      NothingBefore(show);
    }
  }

  lemma EllipsesNext(k: nat, show: set<int>)
    ensures Ellipses(RowsBefore(k + 1, show)) ==
      Ellipses(RowsBefore(k, show)) + if StartsRun(k, show) then 1 else 0
  {
    hide Ellipses;
    var rows := RowsBefore(k, show);
    if RowOf(k, show) == [] {
      assert rows + [] == rows;
    } else {
      SnocRow(rows, RowOf(k, show)[0]);
    }
  }

  lemma RunStartsNext(k: nat, show: set<int>)
    ensures |RunStarts(k + 1, show)| == |RunStarts(k, show)| + if StartsRun(k, show) then 1 else 0
  {
    assert RunStarts(k + 1, show) == RunStarts(k, show) + if StartsRun(k, show) then {k as int} else {};
  }

  lemma {:induction false} ScanKeepsApart(k: nat, show: set<int>)
    ensures
      var rows := RowsBefore(k, show);
      && (k > 0 <==> rows != [])
      && (k > 0 ==> (rows[|rows| - 1].Ellipsis? <==> k - 1 !in show))
      && forall i :: 0 < i < |rows| ==> rows[i - 1].Line? || rows[i].Line?
    decreases k
  {
    if k > 0 {
      ScanKeepsApart(k - 1, show);
    }
  }

  // An excerpt lists exactly the shown lines in range, ascending and each once, has
  // one ellipsis for each maximal omitted run and never two in a row, and ends with
  // one iff the last line is omitted.
  lemma ExcerptShape(rows: seq<Row>, n: nat, show: set<int>)
    requires Excerpt(rows, 0, n, show)
    ensures Ascending(LineNumbers(rows))
    ensures forall x :: x in LineNumbers(rows) <==> 0 <= x < n && x in show
    ensures Ellipses(rows) == |RunStarts(n, show)|
    ensures forall i :: 0 < i < |rows| ==> rows[i - 1].Line? || rows[i].Line?
    ensures n > 0 ==> rows != [] && (rows[|rows| - 1].Ellipsis? <==> n - 1 !in show)
  {
    ScanIsTheExcerpt(n, show, rows);
    ScanLists(n, show);
    ScanCountsRuns(n, show);
    ScanKeepsApart(n, show);
  }

  // With a regular expression missing, the last line is shown, so the excerpt never
  // ends with an ellipsis.
  lemma NoTrailingEllipsis(f: Findings, rows: seq<Row>)
    requires f.missing != [] && Excerpt(rows, 0, |f.lines|, ShownBy(f))
    ensures rows == [] || rows[|rows| - 1].Line?
  {
    var n := |f.lines|;
    ExcerptShape(rows, n, ShownBy(f));
    if n > 0 {
      assert IsShown(f.good, f.bad, true, n, n - 1);
    } else {
      ScanIsTheExcerpt(0, ShownBy(f), rows);
    }
  }

  // ---------- how long an excerpt can be ----------

  lemma {:induction false} UnmatchedShrinks(m: Matcher, regexps: seq<string>, line: string)
    ensures |Unmatched(m, regexps, line)| <= |regexps|
    ensures AnyMatch(m, regexps, line) ==> |Unmatched(m, regexps, line)| < |regexps|
  {
    if regexps != [] {
      UnmatchedShrinks(m, regexps[1..], line);
      assert forall r :: r in regexps ==> r == regexps[0] || r in regexps[1..];
    }
  }

  lemma GoodLinesSnoc(m: Matcher, regexps: seq<string>, lines: seq<string>, line: string)
    ensures
      var more := lines + [line];
      GoodLines(m, regexps, more) == GoodLines(m, regexps, lines) +
        if IsGood(m, regexps, more, |lines|) then {|lines|} else {}
  {
    var more := lines + [line];
    forall i | 0 <= i < |lines|
      ensures IsGood(m, regexps, more, i) <==> IsGood(m, regexps, lines, i)
    {
      assert more[..i] == lines[..i];
    }
  }

  // Every good line uses up at least one regular expression.
  lemma {:induction false} GoodLinesUseRegexps(m: Matcher, regexps: seq<string>, lines: seq<string>)
    ensures |GoodLines(m, regexps, lines)| + |Missing(m, regexps, lines)| <= |regexps|
  {
    hide IsGood, AnyMatch, Missing, Unmatched;
    if lines == [] {
      MissingOfNone(m, regexps);
      assert GoodLines(m, regexps, lines) == {};
    } else {
      var n := |lines| - 1;
      var init := lines[..n];
      assert lines == init + [lines[n]];
      GoodLinesUseRegexps(m, regexps, init);
      GoodLinesSnoc(m, regexps, init, lines[n]);
      MissingSnoc(m, regexps, init, lines[n]);
      UnmatchedShrinks(m, Missing(m, regexps, init), lines[n]);
      GoodIffSomeLeftMatches(m, regexps, lines, n);
    }
  }

  ghost function Near(s: set<int>): set<int>
    decreases |s|
  {
    if s == {} then {}
    else var x := Minimum(s); {x - 2, x - 1, x, x + 1, x + 2} + Near(s - {x})
  }

  lemma FiveIsSmall(x: int)
    ensures |{x - 2, x - 1, x, x + 1, x + 2}| == 5
  {
    assert |{x - 2, x - 1}| == 2;
    assert {x - 2, x - 1, x, x + 1, x + 2} == {x - 2, x - 1} + {x, x + 1, x + 2};
  }

  lemma {:induction false} NearIsSmall(s: set<int>)
    ensures |Near(s)| <= 5 * |s|
    decreases |s|
  {
    hide Near;
    if s == {} {
      NearNothing();
    } else {
      var x := Minimum(s);
      NearIsSmall(s - {x});
      FiveIsSmall(x);
      NearNext(s);
      UnionSize({x - 2, x - 1, x, x + 1, x + 2}, Near(s - {x}));
      assert |s - {x}| == |s| - 1;
    }
  }

  lemma NearNothing()
    ensures Near({}) == {}
  {
  }

  lemma NearNext(s: set<int>)
    requires s != {}
    ensures var x := Minimum(s); Near(s) == {x - 2, x - 1, x, x + 1, x + 2} + Near(s - {x})
  {
  }

  lemma {:induction false} NearCovers(s: set<int>, g: int, k: int)
    requires g in s && g - 2 <= k <= g + 2
    ensures k in Near(s)
    decreases |s|
  {
    var x := Minimum(s);
    if g != x {
      NearCovers(s - {x}, g, k);
    }
  }

  lemma UnionSize(a: set<int>, b: set<int>)
    ensures |a + b| <= |a| + |b|
  {
    assert a + b == a + (b - a);
    Subset(b - a, b);
  }

  lemma {:induction false} Subset(a: set<int>, b: set<int>)
    requires a <= b
    ensures |a| <= |b|
  {
    if a != {} {
      HasMember(a);
      var x :| x in a;
      Subset(a - {x}, b - {x});
    }
  }

  // At most five lines are shown for each good or bad line, and five more.
  lemma ExcerptIsBounded(f: Findings, rows: seq<Row>)
    requires Excerpt(rows, 0, |f.lines|, ShownBy(f))
    ensures |LineNumbers(rows)| <= 5 * (|f.good| + |f.bad|) + 5
  {
    hide Excerpt, RowsBefore, LineNumbers, Near, Ascending;
    var n := |f.lines|;
    var show := ShownBy(f);
    ScanIsTheExcerpt(n, show, rows);
    ScanLists(n, show);
    var marked := f.good + f.bad;
    var lastFive := {n - 5, n - 4, n - 3, n - 2, n - 1};
    NearIsSmall(marked);
    UnionSize(f.good, f.bad);
    UnionSize(Near(marked), lastFive);
    forall k | k in ShownBefore(n, show)
      ensures k in Near(marked) + lastFive
    {
      if g :| g in marked && g - 2 <= k <= g + 2 {
        NearCovers(marked, g, k);
      } else {
        assert IsShown(f.good, f.bad, f.missing != [], n, k);
      }
    }
    Subset(ShownBefore(n, show), Near(marked) + lastFive);
  }

  // ---------- assert_equal ----------

  // Replacing each newline by a newline and an indent.
  function Indent(text: string): string {
    if text == "" then ""
    else (if text[0] == '\n' then "\n  " else [text[0]]) + Indent(text[1..])
  }

  function Indented(lines: seq<string>): (r: seq<string>)
    ensures |r| == |lines| && forall i :: 0 <= i < |lines| ==> r[i] == "  " + lines[i]
  {
    seq(|lines|, i requires 0 <= i < |lines| => "  " + lines[i])
  }

  lemma {:induction false} IndentPlain(text: string)
    requires Plain(text)
    ensures Indent(text) == text
  {
    if text != "" {
      IndentPlain(text[1..]);
    }
  }

  lemma {:induction false} IndentFirst(first: string, rest: string)
    requires Plain(first)
    ensures Indent(first + "\n" + rest) == first + "\n" + ("  " + Indent(rest))
  {
    var text := first + "\n" + rest;
    if first == "" {
      assert text[1..] == rest;
    } else {
      assert text[1..] == first[1..] + "\n" + rest;
      IndentFirst(first[1..], rest);
    }
  }

  // Indenting a text indents each of its lines and keeps them apart.
  lemma {:induction false} IndentShowsLines(text: string)
    ensures Cut("  " + Indent(text)) == Indented(Cut(text))
    decreases |text|
  {
    hide Cut, Indent;
    var k := Find(text, '\n', 0);
    if k == |text| {
      IndentPlain(text);
      CutFirst(text, "");
      CutFirst("  " + text, "");
    } else {
      var first, rest := text[..k], text[k + 1..];
      assert text == first + "\n" + rest;
      IndentFirst(first, rest);
      IndentShowsLines(rest);
      CutFirst(first, rest);
      CutFirst("  " + first, "  " + Indent(rest));
      assert "  " + Indent(text) == "  " + first + "\n" + ("  " + Indent(rest));
    }
  }

  // The failure of assert_equal: its lines are those of the caller's message, if there
  // is one, and then both values line by line, each under its heading.
  function EqualLines(got: string, wanted: string, msg: string): seq<string> {
    (if msg == "" then [] else Cut(msg))
    + ["got:"] + Indented(Cut(got)) + ["expected:"] + Indented(Cut(wanted))
  }

  // `str` is how a value prints.
  function AssertEqual<T(==)>(got: T, wanted: T, str: T -> string, msg: string): (v: Verdict)
    ensures v.Passed? <==> got == wanted
    ensures v.Failed? ==> v.message != "" && Cut(v.message) == EqualLines(str(got), str(wanted), msg)
  {
    if got == wanted then Passed
    else
      var prefix := if msg == "" then "" else msg + "\n";
      var message := prefix + ("got:\n  " + Indent(str(got)) + "\nexpected:\n  " + Indent(str(wanted)));
      EqualMessageLines(str(got), str(wanted), msg, message);
      Failed(message)
  }

  // The formatted values, at the places where their lines are cut.
  lemma ValuesText(x: string, y: string)
    ensures "got:\n  " + x + "\nexpected:\n  " + y ==
      "got:" + "\n" + (("  " + x) + "\n" + ("expected:" + "\n" + ("  " + y)))
  {
    assert "got:\n  " == "got:" + "\n" + "  ";
    assert "\nexpected:\n  " == "\n" + "expected:" + "\n" + "  ";
  }

  lemma ValuesLines(got: string, wanted: string)
    ensures Cut("got:\n  " + Indent(got) + "\nexpected:\n  " + Indent(wanted)) == EqualLines(got, wanted, "")
  {
    hide Cut, Indent, Indented;
    IndentShowsLines(got);
    IndentShowsLines(wanted);
    ValuesText(Indent(got), Indent(wanted));
    CutBody("  " + Indent(got), "  " + Indent(wanted));
  }

  lemma EqualMessageLines(got: string, wanted: string, msg: string, message: string)
    requires message == (if msg == "" then "" else msg + "\n") +
      ("got:\n  " + Indent(got) + "\nexpected:\n  " + Indent(wanted))
    ensures message != "" && Cut(message) == EqualLines(got, wanted, msg)
  {
    hide Cut, Indent, Indented;
    var body := "got:\n  " + Indent(got) + "\nexpected:\n  " + Indent(wanted);
    ValuesLines(got, wanted);
    if msg == "" {
      assert message == body;
    } else {
      CutJoined(msg, body);
      EqualLinesAfter(got, wanted, msg);
    }
    assert |message| >= |body| > 0;
  }

  lemma EqualLinesAfter(got: string, wanted: string, msg: string)
    requires msg != ""
    ensures EqualLines(got, wanted, msg) == Cut(msg) + EqualLines(got, wanted, "")
  {
    hide Cut, Indented;
  }

  lemma CutBody(a: string, b: string)
    ensures Cut("got:" + "\n" + (a + "\n" + ("expected:" + "\n" + b))) == ["got:"] + Cut(a) + ["expected:"] + Cut(b)
  {
    hide Cut;
    CutFirst("expected:", b);
    CutJoined(a, "expected:" + "\n" + b);
    CutFirst("got:", a + "\n" + ("expected:" + "\n" + b));
  }
}
