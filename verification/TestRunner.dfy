// The test structure of the grading library: registered tests, the global score and
// the run loop, each tied to the state machine of module Grading.
module TestRunner {
  import opened Basics
  import opened Grading

  // The wrapper that the decorator returns, with its attributes.
  class TestCase {
    const points: int
    const title: string
    const parent: Option<nat>       // the parent's position in TESTS
    const outcome: Option<string>   // the AssertionError that the body raises
    var complete: bool

    constructor (points: int, title: string, parent: Option<nat>, outcome: Option<string>)
      ensures this.points == points && this.title == title
      ensures this.parent == parent && this.outcome == outcome && !complete
    {
      this.points, this.title, this.parent, this.outcome := points, title, parent, outcome;
      complete := false;
    }

    ghost function Spec(): Entry {
      Test(points, title, parent, outcome)
    }
  }

  datatype Slot = Run(wrapper: TestCase) | Part(name: string) {
    ghost function Spec(): Entry {
      match this
      case Run(t) => t.Spec()
      case Part(name) => EndPart(name)
    }
  }

  // ---------- titles ----------

  function Spaces(name: string): (title: string)
    ensures |title| == |name|
    ensures forall i :: 0 <= i < |name| ==> title[i] == if name[i] == '_' then ' ' else name[i]
  {
    if name == "" then "" else [if name[0] == '_' then ' ' else name[0]] + Spaces(name[1..])
  }

  // A test with a parent is indented by two spaces; then comes the title it was given, or
  // else its name without the first five characters and with spaces for underscores.
  predicate Titled(t: string, name: string, title: string, hasParent: bool) {
    var n := if hasParent then 2 else 0;
    && |t| == n + (if title != "" then |title| else |name| - 5) >= n
    && (forall i :: 0 <= i < n ==> t[i] == ' ')
    && forall i :: n <= i < |t| ==>
         t[i] == if title != "" then title[i - n] else if name[i - n + 5] == '_' then ' ' else name[i - n + 5]
  }

  function TitleOf(name: string, title: string, hasParent: bool): string
    requires title == "" ==> "test_" <= name
  {
    (if hasParent then "  " else "") + if title == "" then Spaces(name[5..]) else title
  }

  lemma TitleIsAsPromised(name: string, title: string, hasParent: bool)
    requires title == "" ==> "test_" <= name
    ensures Titled(TitleOf(name, title, hasParent), name, title, hasParent)
  {
    hide Spaces;
    var indent := if hasParent then "  " else "";
    var body := if title != "" then title else Spaces(name[5..]);
    var t := TitleOf(name, title, hasParent);
    assert t == indent + body;
    assert title == "" ==> |name[5..]| == |name| - 5 && forall i :: 0 <= i < |name| - 5 ==> name[5..][i] == name[i + 5];
  }

  class TestSuite {
    var tests: seq<Slot>
    var total: int
    var possible: int
    var partTotal: int
    var partPossible: int
    var currentTest: Option<nat>
    var printed: seq<Score>
    var printedScore: Option<(int, int)>    // the final line, if it has been printed
    ghost var trace: seq<Event>

    ghost function Cases(): set<object>
      reads this
    {
      set i | 0 <= i < |tests| && tests[i].Run? :: tests[i].wrapper
    }

    ghost function Specs(): seq<Entry>
      reads this
    {
      seq(|tests|, i requires 0 <= i < |tests| reads this => tests[i].Spec())
    }

    ghost predicate Valid()
      reads this
    {
      && this !in Cases()
      && (forall i, j :: 0 <= i < j < |tests| && tests[i].Run? && tests[j].Run? ==>
           tests[i].wrapper != tests[j].wrapper)
      && WellFormed(Specs())
    }

    ghost function Complete(): set<nat>
      reads this, Cases()
    {
      set i: nat | i < |tests| && tests[i].Run? && tests[i].wrapper.complete
    }

    ghost function View(): State
      reads this, Cases()
    {
      State(Complete(), total, possible, partTotal, partPossible, currentTest, trace, printed)
    }

    constructor ()
      ensures Valid() && tests == [] && View() == START && printedScore == None
    {
      tests, total, possible, partTotal, partPossible := [], 0, 0, 0, 0;
      currentTest, printed, printedScore, trace := None, [], None, [];
    }

    // The decorator @test(points, title, parent) on a function with this name.
    method Register(points: int, name: string, title: string, parent: Option<nat>, outcome: Option<string>)
      returns (position: nat)
      requires Valid()
      requires title == "" ==> "test_" <= name
      requires parent.Some? ==> parent.value < |tests| && tests[parent.value].Run?
      modifies this`tests
      ensures Valid() && position == |old(tests)|
      ensures Specs() == old(Specs()) + [Test(points, TitleOf(name, title, parent.Some?), parent, outcome)]
      ensures View() == old(View())
      ensures tests == old(tests) + [tests[position]] && tests[position].Run?
      ensures Titled(tests[position].wrapper.title, name, title, parent.Some?)
      ensures fresh(Cases() - old(Cases()))
    {
      hide Titled, TitleOf;
      TitleIsAsPromised(name, title, parent.Some?);
      var t := new TestCase(points, TitleOf(name, title, parent.Some?), parent, outcome);
      position := |tests|;
      ghost var before := Specs();
      tests := tests + [Run(t)];
      assert Specs() == before + [t.Spec()];
      forall i | 0 <= i < |Specs()|
        ensures ParentOk(Specs(), i)
      {
        assert i < |before| ==> ParentOk(before, i);
      }
      assert Complete() == old(Complete());
    }

    method RegisterPart(name: string)
      requires Valid()
      modifies this`tests
      ensures Valid()
      ensures Specs() == old(Specs()) + [EndPart(name)]
      ensures View() == old(View())
      ensures tests == old(tests) + [Part(name)] && Cases() == old(Cases())
    {
      ghost var before := Specs();
      ghost var cases := Cases();
      tests := tests + [Part(name)];
      assert Cases() == cases by {
        assert tests[..|before|] == old(tests);
        assert forall i :: 0 <= i < |before| ==> tests[i] == old(tests)[i];
      }
      assert Specs() == before + [EndPart(name)];
      forall i | 0 <= i < |Specs()|
        ensures ParentOk(Specs(), i)
      {
        assert i < |before| ==> ParentOk(before, i);
      }
      assert Complete() == old(Complete());
    }

    method RunTest(i: nat)
      requires Valid() && i < |tests| && tests[i].Run?
      modifies this`total, this`possible, this`currentTest, this`trace, Cases()
      ensures Valid() && Specs() == old(Specs())
      ensures View() == Grading.RunTest(Specs(), old(View()), i)
      decreases i
    {
      hide Grading.RunBody, Contains;
      var t := tests[i].wrapper;
      assert Specs()[i] == t.Spec() && ParentOk(Specs(), i);
      if t.complete {
        assert i in Complete();
        return;
      }
      t.complete := true;
      assert View() == old(View()).(complete := old(Complete()) + {i});
      assert Specs() == old(Specs());
      if t.parent.Some? {
        assert tests[t.parent.value].Spec() == Specs()[t.parent.value];
        RunTest(t.parent.value);
      }
      RunBody(i);
    }

    // The rest of run_test, once the parent has run: the body, the score and the
    // on_finish callbacks.
    method RunBody(i: nat)
      requires Valid() && i < |tests| && tests[i].Run?
      modifies this`total, this`possible, this`currentTest, this`trace
      ensures Valid() && Specs() == old(Specs())
      ensures i < |Specs()| && View() == Grading.RunBody(Specs(), old(View()), i)
    {
      var t := tests[i].wrapper;
      assert Specs()[i] == t.Spec();
      currentTest := Some(i);
      trace := trace + [Body(i, currentTest)];
      var fail := t.outcome;          // the body
      possible := possible + t.points;
      var failed := fail.Some? && fail.value != "";
      if !failed {
        total := total + t.points;
      }
      trace := trace + [Finish(i, failed, currentTest)];
      currentTest := None;
      assert Specs() == old(Specs());
      assert Complete() == old(Complete());
    }

    method ShowPart(name: string)
      requires Valid()
      modifies this`partTotal, this`partPossible, this`printed
      ensures Valid() && Specs() == old(Specs())
      ensures View() == Grading.ShowPart(old(View()), name)
    {
      printed := printed + [Score(name, total - partTotal, possible - partPossible)];
      partTotal, partPossible := total, possible;
      assert Specs() == old(Specs());
      assert Complete() == old(Complete());
    }

    // The arguments are the command line's filters and `lower` is str.lower; the flag is
    // the exit status.
    method RunTests(args: seq<string>, lower: string -> string) returns (exitFailure: bool)
      requires Valid() && View() == START
      modifies this`total, this`possible, this`partTotal, this`partPossible, this`currentTest,
        this`printed, this`printedScore, this`trace, Cases()
      ensures Valid() && tests == old(tests) && Specs() == old(Specs())
      ensures View() == Grading.RunTests(Specs(), FilterOf(args, lower), |tests|)
      ensures printedScore == if args == [] then Some((total, possible)) else old(printedScore)
      ensures exitFailure == ExitsWithFailure(View())
    {
      hide Selected, Grading.RunTest, Grading.ShowPart;
      var filter := FilterOf(args, lower);
      for k := 0 to |tests|
        invariant Valid() && Specs() == old(Specs())
        invariant View() == Grading.RunTests(Specs(), filter, k)
        invariant printedScore == old(printedScore)
      {
        assert Specs()[k] == tests[k].Spec();
        match tests[k]
        case Run(t) =>
          if Selected(filter, Test(t.points, t.title, t.parent, t.outcome)) {
            RunTest(k);
          }
        case Part(name) =>
          if Selected(filter, EndPart(name)) {
            ShowPart(name);
          }
      }
      if filter.limit == [] {
        printedScore := Some((total, possible));
        assert Specs() == old(Specs()) && Complete() == (Grading.RunTests(Specs(), filter, |tests|)).complete;
      }
      exitFailure := total < possible;
    }
  }

  // ---------- a grading script ----------

  // What a script declares: a test under a decorator, or the end of a part.
  datatype Declaration =
    | DeclareTest(points: int, name: string, title: string, parent: Option<nat>, outcome: Option<string>)
    | DeclarePart(partName: string)
  {
    predicate Ok() {
      DeclareTest? && title == "" ==> "test_" <= name
    }

    function Spec(): Entry
      requires Ok()
    {
      if DeclarePart? then EndPart(partName)
      else Test(points, TitleOf(name, title, parent.Some?), parent, outcome)
    }
  }

  // A parent has been declared before, as a test.
  predicate ScriptOk(script: seq<Declaration>) {
    forall i :: 0 <= i < |script| ==>
      && script[i].Ok()
      && (script[i].DeclareTest? && script[i].parent.Some? ==>
           script[i].parent.value < i && script[script[i].parent.value].DeclareTest?)
  }

  ghost function Entries(script: seq<Declaration>): (es: seq<Entry>)
    requires ScriptOk(script)
    ensures |es| == |script| && forall i :: 0 <= i < |script| ==> es[i] == script[i].Spec()
  {
    seq(|script|, i requires 0 <= i < |script| => script[i].Spec())
  }

  // What a declaration registers.
  ghost predicate Declares(d: Declaration, e: Entry) {
    match d
    case DeclarePart(name) => e == EndPart(name)
    case DeclareTest(points, name, title, parent, outcome) =>
      e.Test? && e == Test(points, e.title, parent, outcome) && Titled(e.title, name, title, parent.Some?)
  }

  // A whole grading script, from its declarations to the exit status, for any
  // command-line arguments: which tests complete and in which order, what they score,
  // and when the process fails.
  method Grade(script: seq<Declaration>, args: seq<string>, lower: string -> string)
    returns (suite: TestSuite, exitFailure: bool)
    requires ScriptOk(script)
    ensures fresh(suite) && suite.Valid() && suite.Specs() == Entries(script)
    ensures
      var es, s := Entries(script), suite.View();
      var order := Order(s.trace);
      && WellFormed(es)
      && (forall i :: 0 <= i < |script| ==> Declares(script[i], es[i]))
      && s.complete == Wanted(es, FilterOf(args, lower), |es|)
      && (forall i :: i in order <==> i in s.complete)
      && NoRepeats(order) && ParentsFirst(es, order) && s.trace == Serial(es, order)
      && s.total == Earned(es, order) && s.possible == Possible(es, order)
      && (exitFailure <==> FailedPoints(es, order) > 0)
      && s.printed == ShownScores(es, FilterOf(args, lower), |es|)
      && (args == [] ==>
        && order == TestsBefore(es, |es|)
        && s.printed == PartScores(es, |es|)
        && suite.printedScore == Some((RangeEarned(es, 0, |es|), RangePossible(es, 0, |es|))))
  {
    hide Titled, TitleOf, Order, Wanted, NoRepeats, ParentsFirst, Serial, Earned, Possible, FailedPoints, ShownScores,
      PartScores, RangeEarned, RangePossible, TestsBefore, Grading.RunTests, SumEarned, SumPossible;
    suite := Declare(script);
    forall i | 0 <= i < |script| && script[i].DeclareTest? {
      TitleIsAsPromised(script[i].name, script[i].title, script[i].parent.Some?);
    }
    exitFailure := suite.RunTests(args, lower);
    ghost var es := Entries(script);
    RunTestsRunsWanted(es, FilterOf(args, lower));
    ScoreOfRun(es, FilterOf(args, lower));
    FilteredPartScores(es, FilterOf(args, lower), |es|);
    if args == [] {
      UnfilteredOrder(es, FilterOf(args, lower), |es|);
      UnfilteredTotals(es, FilterOf(args, lower), |es|);
      UnfilteredPartScores(es, FilterOf(args, lower), |es|);
    }
  }

  method Declare(script: seq<Declaration>) returns (suite: TestSuite)
    requires ScriptOk(script)
    ensures fresh(suite) && fresh(suite.Cases())
    ensures suite.Valid() && suite.Specs() == Entries(script) && suite.View() == START
  {
    hide Titled, TitleOf, ParentOk;
    suite := new TestSuite();
    for i := 0 to |script|
      invariant fresh(suite) && fresh(suite.Cases())
      invariant suite.Valid() && suite.View() == START
      invariant |suite.tests| == i && suite.Specs() == Entries(script)[..i]
    {
      match script[i]
      case DeclareTest(points, name, title, parent, outcome) =>
        if parent.Some? {
          assert suite.Specs()[parent.value] == suite.tests[parent.value].Spec();
        }
        var position := suite.Register(points, name, title, parent, outcome);
      case DeclarePart(partName) =>
        suite.RegisterPart(partName);
    }
  }
}
