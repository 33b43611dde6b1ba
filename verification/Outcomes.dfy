// Tests whose body is one assertion: how a failed assertion reaches the score.
module Outcomes {
  import opened Basics
  import opened Text
  import opened Grading
  import LinesMatch
  import Excerpts

  // A test whose body is r.match on this output.
  method MatchTest(points: int, title: string, parent: Option<nat>, m: LinesMatch.Matcher, output: string,
                   regexps: seq<string>, no: seq<string>, colors: bool)
    returns (e: Entry)
    ensures e.Test? && e == Test(points, title, parent, e.outcome)
    ensures e.Fails() <==> !LinesMatch.Satisfied(m, SplitLines(output), regexps, no)
  {
    hide LinesMatch.Satisfied, LinesMatch.Excerpt;
    var verdict := LinesMatch.AssertLinesMatch(m, output, regexps, no, colors);
    e := Test(points, title, parent, if verdict.Passed? then None else Some(verdict.message));
  }

  // A test whose body is assert_equal on two values that print as `str` says.
  method EqualTest<T(==)>(points: int, title: string, parent: Option<nat>, got: T, wanted: T,
                          str: T -> string, msg: string)
    returns (e: Entry)
    ensures e.Test? && e == Test(points, title, parent, e.outcome)
    ensures e.Fails() <==> got != wanted
  {
    var verdict := Excerpts.AssertEqual(got, wanted, str, msg);
    e := Test(points, title, parent, if verdict.Passed? then None else Some(verdict.message));
  }
}
