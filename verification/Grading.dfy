// Running registered tests and keeping score, as a state machine.
module Grading {
  import opened Basics

  // An entry of TESTS: a test, or the end of a part.  A test's body runs at most
  // once, so it has one outcome: None if it returns, or the text of the
  // AssertionError it raises.
  datatype Entry =
    | Test(points: int, title: string, parent: Option<nat>, outcome: Option<string>)
    | EndPart(name: string)
  {
    // An AssertionError with an empty text counts as a pass.
    predicate Fails() {
      Test? && outcome.Some? && outcome.value != ""
    }

    function Title(): string {
      if Test? then title else ""
    }
  }

  // A parent is registered before its children.
  predicate WellFormed(es: seq<Entry>) {
    forall i :: 0 <= i < |es| ==> ParentOk(es, i)
  }

  predicate ParentOk(es: seq<Entry>, i: nat)
    requires i < |es|
  {
    es[i].Test? && es[i].parent.Some? ==> es[i].parent.value < i && es[es[i].parent.value].Test?
  }

  // What a test's body and its on_finish callbacks see as the current test.
  datatype Event = Body(test: nat, current: Option<nat>) | Finish(test: nat, failed: bool, current: Option<nat>)

  datatype Score = Score(name: string, earned: int, possible: int)

  datatype State = State(complete: set<nat>, total: int, possible: int, partTotal: int, partPossible: int,
                         current: Option<nat>, trace: seq<Event>, printed: seq<Score>)

  const START: State := State({}, 0, 0, 0, 0, None, [], [])

  function RunBody(es: seq<Entry>, s: State, i: nat): State
    requires i < |es| && es[i].Test?
  {
    var failed := es[i].Fails();
    s.(current := None,
       possible := s.possible + es[i].points,
       total := s.total + if failed then 0 else es[i].points,
       trace := s.trace + [Body(i, Some(i)), Finish(i, failed, Some(i))])
  }

  function RunTest(es: seq<Entry>, s: State, i: nat): State
    requires WellFormed(es) && i < |es| && es[i].Test?
    decreases i
  {
    assert ParentOk(es, i);
    if i in s.complete then s
    else
      var started := s.(complete := s.complete + {i});
      RunBody(es, if es[i].parent.Some? then RunTest(es, started, es[i].parent.value) else started, i)
  }

  function ShowPart(s: State, name: string): State {
    s.(printed := s.printed + [Score(name, s.total - s.partTotal, s.possible - s.partPossible)],
       partTotal := s.total, partPossible := s.possible)
  }

  // ---------- filters ----------

  // The filters of a run: the lowered arguments, and how a title is lowered.
  datatype Filter = Filter(limit: seq<string>, lower: string -> string)

  function FilterOf(args: seq<string>, lower: string -> string): (filter: Filter)
    ensures |filter.limit| == |args| && filter.lower == lower
    ensures forall i :: 0 <= i < |args| ==> filter.limit[i] == lower(args[i])
  {
    Filter(seq(|args|, i requires 0 <= i < |args| => lower(args[i])), lower)
  }

  predicate Contains(t: string, part: string) {
    exists k :: 0 <= k <= |t| && part <= t[k..]
  }

  predicate Selected(filter: Filter, e: Entry) {
    filter.limit == [] || exists l :: l in filter.limit && Contains(filter.lower(e.Title()), l)
  }

  // part stands at position k of t.
  predicate StandsAt(part: string, t: string, k: nat) {
    k + |part| <= |t| && forall i :: 0 <= i < |part| ==> t[k + i] == part[i]
  }

  lemma ContainsIff(t: string, part: string)
    ensures Contains(t, part) <==> exists k: nat :: StandsAt(part, t, k)
  {
    forall k: nat | k <= |t|
      ensures part <= t[k..] <==> StandsAt(part, t, k)
    {
      assert part <= t[k..] ==> forall i :: 0 <= i < |part| ==> t[k..][i] == part[i];
    }
  }

  // However letters are lowered, an entry is selected when some argument stands
  // somewhere in its title, both lowered, or when there are no arguments.
  lemma SelectedIff(args: seq<string>, lower: string -> string, e: Entry)
    ensures Selected(FilterOf(args, lower), e) <==>
      args == [] || exists i, k: nat :: 0 <= i < |args| && StandsAt(lower(args[i]), lower(e.Title()), k)
  {
    hide Contains, StandsAt, FilterOf;
    var limit, t := FilterOf(args, lower).limit, lower(e.Title());
    forall i | 0 <= i < |args|
      ensures Contains(t, limit[i]) <==> exists k: nat :: StandsAt(lower(args[i]), t, k)
    {
      ContainsIff(t, limit[i]);
    }
    if i, k: nat :| 0 <= i < |args| && StandsAt(lower(args[i]), t, k) {
      assert limit[i] in limit;
    }
  }

  // So case does not matter: arguments and titles that lower alike select alike.
  lemma SelectedIgnoresCase(lower: string -> string, args: seq<string>, e: Entry, args': seq<string>, e': Entry)
    requires |args| == |args'| && lower(e.Title()) == lower(e'.Title())
    requires forall i :: 0 <= i < |args| ==> lower(args[i]) == lower(args'[i])
    ensures Selected(FilterOf(args, lower), e) <==> Selected(FilterOf(args', lower), e')
  {
    hide Contains;
    var limit := FilterOf(args, lower).limit;
    assert FilterOf(args', lower).limit == limit;
  }

  // t is lowered letter by letter.
  predicate LetterByLetter(lower: string -> string, letter: char -> char, t: string) {
    |lower(t)| == |t| && forall i :: 0 <= i < |t| ==> lower(t)[i] == letter(t[i])
  }

  // The argument stands at position k of the title up to case.
  predicate OccursAt(letter: char -> char, arg: string, title: string, k: nat) {
    k + |arg| <= |title| && forall i :: 0 <= i < |arg| ==> letter(title[k + i]) == letter(arg[i])
  }

  // In the title as it is written: some argument occurs in it up to case, wherever
  // letters are lowered one by one.
  lemma SelectedByLetters(args: seq<string>, lower: string -> string, letter: char -> char, e: Entry)
    requires LetterByLetter(lower, letter, e.Title())
    requires forall i :: 0 <= i < |args| ==> LetterByLetter(lower, letter, args[i])
    ensures Selected(FilterOf(args, lower), e) <==>
      args == [] || exists i, k: nat :: 0 <= i < |args| && OccursAt(letter, args[i], e.Title(), k)
  {
    hide FilterOf, Selected;
    SelectedIff(args, lower, e);
    forall i, k: nat | 0 <= i < |args|
      ensures StandsAt(lower(args[i]), lower(e.Title()), k) <==> OccursAt(letter, args[i], e.Title(), k)
    {
    }
  }

  // The end of a part has the empty title: with arguments it is shown only if one of them
  // is empty once lowered.
  lemma PartShownIff(args: seq<string>, lower: string -> string, e: Entry)
    requires e.EndPart? && lower("") == ""
    ensures Selected(FilterOf(args, lower), e) <==> args == [] || exists i :: 0 <= i < |args| && lower(args[i]) == ""
  {
    hide FilterOf, Selected;
    SelectedIff(args, lower, e);
    forall i, k: nat | 0 <= i < |args| && StandsAt(lower(args[i]), "", k)
      ensures lower(args[i]) == ""
    {
    }
    if i :| 0 <= i < |args| && lower(args[i]) == "" {
      assert StandsAt(lower(args[i]), lower(e.Title()), 0);
    }
  }

  // The loop of run_tests up to entry k, from a state.
  function RunEntry(es: seq<Entry>, filter: Filter, s: State, k: nat): State
    requires WellFormed(es) && k < |es|
  {
    if !Selected(filter, es[k]) then s
    else if es[k].Test? then RunTest(es, s, k)
    else ShowPart(s, es[k].name)
  }

  function RunTests(es: seq<Entry>, filter: Filter, k: nat): State
    requires WellFormed(es) && k <= |es|
    decreases k
  {
    if k == 0 then START else RunEntry(es, filter, RunTests(es, filter, k - 1), k - 1)
  }

  predicate ExitsWithFailure(s: State) {
    s.total < s.possible
  }

  // ---------- the order in which bodies ran ----------

  function Order(trace: seq<Event>): seq<nat> {
    if trace == [] then []
    else
      var last := trace[|trace| - 1];
      Order(trace[..|trace| - 1]) + if last.Body? then [last.test] else []
  }

  // One body at a time, each followed by its own finish, both with itself as the
  // current test.
  function Serial(es: seq<Entry>, order: seq<nat>): seq<Event> {
    if order == [] then []
    else
      var i := order[|order| - 1];
      Serial(es, order[..|order| - 1]) +
      [Body(i, Some(i)), Finish(i, i < |es| && es[i].Fails(), Some(i))]
  }

  lemma OrderGrows(trace: seq<Event>, i: nat, failed: bool)
    ensures Order(trace + [Body(i, Some(i)), Finish(i, failed, Some(i))]) == Order(trace) + [i]
  {
    var t1 := trace + [Body(i, Some(i))];
    var t2 := trace + [Body(i, Some(i)), Finish(i, failed, Some(i))];
    assert t2[..|t2| - 1] == t1;
    assert t1[..|t1| - 1] == trace;
    assert Order(t2) == Order(t1) + [];
  }

  ghost predicate NoRepeats(order: seq<nat>) {
    forall i, j :: 0 <= i < j < |order| ==> order[i] != order[j]
  }

  // Every test in the order has its parent somewhere before it.
  ghost predicate ParentsFirst(es: seq<Entry>, order: seq<nat>) {
    forall j :: 0 <= j < |order| ==>
      order[j] < |es| && es[order[j]].Test? &&
      (es[order[j]].parent.Some? ==> es[order[j]].parent.value in order[..j])
  }

  // ---------- sums over the tests that ran ----------

  function Possible(es: seq<Entry>, order: seq<nat>): int {
    if order == [] then 0
    else
      var i := order[|order| - 1];
      Possible(es, order[..|order| - 1]) + if i < |es| && es[i].Test? then es[i].points else 0
  }

  function Earned(es: seq<Entry>, order: seq<nat>): int {
    if order == [] then 0
    else
      var i := order[|order| - 1];
      Earned(es, order[..|order| - 1]) + if i < |es| && es[i].Test? && !es[i].Fails() then es[i].points else 0
  }

  function SumEarned(scores: seq<Score>): int {
    if scores == [] then 0 else SumEarned(scores[..|scores| - 1]) + scores[|scores| - 1].earned
  }

  function SumPossible(scores: seq<Score>): int {
    if scores == [] then 0 else SumPossible(scores[..|scores| - 1]) + scores[|scores| - 1].possible
  }

  // ---------- what every step keeps ----------

  ghost predicate Sequenced(es: seq<Entry>, trace: seq<Event>) {
    && trace == Serial(es, Order(trace))
    && NoRepeats(Order(trace))
    && ParentsFirst(es, Order(trace))
  }

  // `waiting` are the tests that have started and wait for an ancestor to finish.
  ghost predicate Tracked(s: State, waiting: set<nat>) {
    && (forall i :: i in s.complete <==> i in Order(s.trace) || i in waiting)
    && (forall i :: i in waiting ==> i !in Order(s.trace))
    && s.current == None
  }

  ghost predicate Counted(es: seq<Entry>, s: State) {
    && s.possible == Possible(es, Order(s.trace))
    && s.total == Earned(es, Order(s.trace))
    && s.partTotal == SumEarned(s.printed)
    && s.partPossible == SumPossible(s.printed)
  }

  ghost predicate Consistent(es: seq<Entry>, s: State, waiting: set<nat>) {
    Sequenced(es, s.trace) && Tracked(s, waiting) && Counted(es, s)
  }

  // A test and all its ancestors.
  function Lineage(es: seq<Entry>, i: nat): set<nat>
    requires WellFormed(es) && i < |es| && es[i].Test?
    decreases i
  {
    assert ParentOk(es, i);
    {i} + if es[i].parent.Some? then Lineage(es, es[i].parent.value) else {}
  }

  lemma AppendToOrder(es: seq<Entry>, order: seq<nat>, i: nat)
    requires i < |es| && es[i].Test? && i !in order
    requires NoRepeats(order) && ParentsFirst(es, order)
    requires es[i].parent.Some? ==> es[i].parent.value in order
    ensures NoRepeats(order + [i]) && ParentsFirst(es, order + [i])
  {
    forall j | 0 <= j <= |order|
      ensures (order + [i])[..j] == order[..j]
    {
    }
  }

  lemma RunBodyKeeps(es: seq<Entry>, s: State, i: nat, waiting: set<nat>)
    requires i < |es| && es[i].Test? && i !in waiting
    requires es[i].parent.Some? ==> es[i].parent.value in Order(s.trace)
    ensures Consistent(es, s, waiting + {i}) ==> Consistent(es, RunBody(es, s, i), waiting)
    ensures Order(RunBody(es, s, i).trace) == Order(s.trace) + [i]
  {
    hide SumEarned, SumPossible, Order, NoRepeats, ParentsFirst;
    var order := Order(s.trace);
    var s' := RunBody(es, s, i);
    OrderGrows(s.trace, i, es[i].Fails());
    if Consistent(es, s, waiting + {i}) {
      assert i in waiting + {i};
      AppendToOrder(es, order, i);
      assert (order + [i])[..|order|] == order;
    }
  }

  // Running a test runs exactly those of its lineage that have not run, each after
  // its parent and itself last.
  lemma {:induction false} RunTestKeeps(es: seq<Entry>, s: State, i: nat, waiting: set<nat>)
    requires WellFormed(es) && i < |es| && es[i].Test?
    requires Consistent(es, s, waiting)
    requires forall j :: j in waiting ==> j > i
    ensures Consistent(es, RunTest(es, s, i), waiting)
    ensures Order(s.trace) <= Order(RunTest(es, s, i).trace)
    ensures forall j :: j in Order(RunTest(es, s, i).trace) <==> j in Order(s.trace) || j in Lineage(es, i)
    ensures RunTest(es, s, i).printed == s.printed
    ensures RunTest(es, s, i).partTotal == s.partTotal && RunTest(es, s, i).partPossible == s.partPossible
    decreases i
  {
    hide Sequenced, Counted, Order;
    assert ParentOk(es, i);
    if i in s.complete {
      assert ParentsFirst(es, Order(s.trace)) by {
        SequencedParents(es, s.trace);
      }
      LineageRan(es, Order(s.trace), i);
    } else {
      var started := s.(complete := s.complete + {i});
      assert Consistent(es, started, waiting + {i}) by {
        CountedIgnoresComplete(es, s, started);
      }
      var ready := started;
      if es[i].parent.Some? {
        var p := es[i].parent.value;
        RunTestKeeps(es, started, p, waiting + {i});
        ready := RunTest(es, started, p);
        assert p in Lineage(es, p);
      }
      RunBodyKeeps(es, ready, i, waiting);
    }
  }

  lemma SequencedParents(es: seq<Entry>, trace: seq<Event>)
    requires Sequenced(es, trace)
    ensures ParentsFirst(es, Order(trace))
  {
  }

  lemma CountedIgnoresComplete(es: seq<Entry>, s: State, s': State)
    requires Counted(es, s) && s' == s.(complete := s'.complete)
    ensures Counted(es, s')
  {
  }

  // Who has run, has run after all its ancestors.
  lemma {:induction false} LineageRan(es: seq<Entry>, order: seq<nat>, i: nat)
    requires WellFormed(es) && ParentsFirst(es, order)
    requires i < |es| && es[i].Test? && i in order
    ensures forall j :: j in Lineage(es, i) ==> j in order
    decreases i
  {
    assert ParentOk(es, i);
    if es[i].parent.Some? {
      LineageRan(es, order, es[i].parent.value);
    }
  }

  // ---------- whole runs ----------

  // The selected tests among the first k entries, and all their ancestors.
  function Wanted(es: seq<Entry>, filter: Filter, k: nat): set<nat>
    requires WellFormed(es) && k <= |es|
    decreases k
  {
    if k == 0 then {}
    else
      Wanted(es, filter, k - 1) +
      if es[k - 1].Test? && Selected(filter, es[k - 1]) then Lineage(es, k - 1) else {}
  }

  lemma RunEntryKeeps(es: seq<Entry>, filter: Filter, s: State, k: nat)
    requires WellFormed(es) && k < |es| && Consistent(es, s, {})
    ensures Consistent(es, RunEntry(es, filter, s, k), {})
    ensures forall j :: j in Order(RunEntry(es, filter, s, k).trace) <==>
      j in Order(s.trace) || (es[k].Test? && Selected(filter, es[k]) && j in Lineage(es, k))
  {
    hide Consistent, Order, Selected, RunTest, ShowPart, Lineage;
    if Selected(filter, es[k]) {
      if es[k].Test? {
        RunTestKeeps(es, s, k, {});
      } else {
        ShowPartKeeps(es, s, es[k].name);
      }
    }
  }

  lemma StartIsConsistent(es: seq<Entry>)
    ensures Consistent(es, START, {}) && Order(START.trace) == []
  {
  }

  lemma {:induction false} RunTestsKeeps(es: seq<Entry>, filter: Filter, k: nat)
    requires WellFormed(es) && k <= |es|
    ensures Consistent(es, RunTests(es, filter, k), {})
    ensures forall j :: j in Order(RunTests(es, filter, k).trace) <==> j in Wanted(es, filter, k)
    decreases k
  {
    hide Consistent, Order, Selected, RunEntry, Lineage;
    if k > 0 {
      RunTestsKeeps(es, filter, k - 1);
      RunEntryKeeps(es, filter, RunTests(es, filter, k - 1), k - 1);
    } else {
      StartIsConsistent(es);
    }
  }

  lemma ShowPartKeeps(es: seq<Entry>, s: State, name: string)
    requires Consistent(es, s, {})
    ensures Consistent(es, ShowPart(s, name), {})
    ensures ShowPart(s, name).trace == s.trace
  {
    var scores := ShowPart(s, name).printed;
    assert scores[..|scores| - 1] == s.printed;
  }

  // For any filter: the tests that complete are the selected ones and all their
  // ancestors; each body runs once, alone, as the current test, after its parent has
  // finished.
  lemma RunTestsRunsWanted(es: seq<Entry>, filter: Filter)
    requires WellFormed(es)
    ensures
      var s := RunTests(es, filter, |es|);
      var order := Order(s.trace);
      && s.complete == Wanted(es, filter, |es|)
      && (forall i :: i in order <==> i in s.complete)
      && NoRepeats(order)
      && ParentsFirst(es, order)
      && s.trace == Serial(es, order)
      && s.current == None
  {
    RunTestsKeeps(es, filter, |es|);
  }

  // Wanted in other words: an entry is wanted iff it is an ancestor of, or is itself,
  // a selected test.
  lemma {:induction false} WantedIff(es: seq<Entry>, filter: Filter, k: nat, i: nat)
    requires WellFormed(es) && k <= |es|
    ensures i in Wanted(es, filter, k) <==>
      exists j :: 0 <= j < k && es[j].Test? && Selected(filter, es[j]) && i in Lineage(es, j)
    decreases k
  {
    hide Selected, Lineage;
    if k > 0 {
      WantedIff(es, filter, k - 1, i);
    }
  }

  // ---------- scores ----------

  function FailedPoints(es: seq<Entry>, order: seq<nat>): int {
    if order == [] then 0
    else
      var i := order[|order| - 1];
      FailedPoints(es, order[..|order| - 1]) + if i < |es| && es[i].Fails() then es[i].points else 0
  }

  ghost predicate NonNegative(es: seq<Entry>) {
    forall i :: 0 <= i < |es| && es[i].Test? ==> es[i].points >= 0
  }

  lemma {:induction false} PossibleIsEarnedPlusFailed(es: seq<Entry>, order: seq<nat>)
    ensures Possible(es, order) == Earned(es, order) + FailedPoints(es, order)
  {
    if order != [] {
      PossibleIsEarnedPlusFailed(es, order[..|order| - 1]);
    }
  }

  lemma {:induction false} FailedPointsPositive(es: seq<Entry>, order: seq<nat>)
    requires NonNegative(es)
    ensures Earned(es, order) >= 0 && FailedPoints(es, order) >= 0
    ensures FailedPoints(es, order) > 0 <==>
      exists i :: i in order && i < |es| && es[i].Fails() && es[i].points > 0
  {
    if order != [] {
      var init, last := order[..|order| - 1], order[|order| - 1];
      FailedPointsPositive(es, init);
      assert order == init + [last];
      assert forall i :: i in order <==> i in init || i == last;
    }
  }

  // The process exits with a failure iff the points of the finished tests that failed
  // sum to more than zero: for non-negative points, iff one of them was worth points.
  // Between tests POSSIBLE and TOTAL are the sums over the finished and the passed.
  lemma ScoreOfRun(es: seq<Entry>, filter: Filter)
    requires WellFormed(es)
    ensures
      var s := RunTests(es, filter, |es|);
      var order := Order(s.trace);
      && s.possible == Possible(es, order)
      && s.total == Earned(es, order)
      && (ExitsWithFailure(s) <==> FailedPoints(es, order) > 0)
      && SumEarned(s.printed) + (s.total - s.partTotal) == s.total
      && SumPossible(s.printed) + (s.possible - s.partPossible) == s.possible
      && (NonNegative(es) ==>
        && 0 <= s.total <= s.possible
        && (ExitsWithFailure(s) <==>
            exists i :: i in s.complete && i < |es| && es[i].Fails() && es[i].points > 0))
  {
    hide Order, Earned, Possible, FailedPoints, SumEarned, SumPossible, RunTests, NoRepeats, ParentsFirst, Serial;
    RunTestsKeeps(es, filter, |es|);
    var s := RunTests(es, filter, |es|);
    var order := Order(s.trace);
    PossibleIsEarnedPlusFailed(es, order);
    if NonNegative(es) {
      FailedPointsPositive(es, order);
    }
  }

  // The points of the tests whose bodies returned, and of those whose bodies raised an
  // AssertionError with an empty text, as a bare assert does.
  function Returned(es: seq<Entry>, order: seq<nat>): int {
    if order == [] then 0
    else
      var i := order[|order| - 1];
      Returned(es, order[..|order| - 1]) +
      if i < |es| && es[i].Test? && es[i].outcome.None? then es[i].points else 0
  }

  predicate RaisedSilently(es: seq<Entry>, i: nat) {
    i < |es| && es[i].Test? && es[i].outcome == Some("")
  }

  function Silent(es: seq<Entry>, order: seq<nat>): int {
    if order == [] then 0
    else
      var i := order[|order| - 1];
      Silent(es, order[..|order| - 1]) + if RaisedSilently(es, i) then es[i].points else 0
  }

  lemma {:induction false} EarnedIsReturnedPlusSilent(es: seq<Entry>, order: seq<nat>)
    ensures Earned(es, order) == Returned(es, order) + Silent(es, order)
  {
    if order != [] {
      EarnedIsReturnedPlusSilent(es, order[..|order| - 1]);
    }
  }

  lemma {:induction false} SilentPositive(es: seq<Entry>, order: seq<nat>)
    requires NonNegative(es)
    ensures Silent(es, order) >= 0
    ensures Silent(es, order) > 0 <==> exists i :: i in order && RaisedSilently(es, i) && es[i].points > 0
  {
    if order != [] {
      var init, last := order[..|order| - 1], order[|order| - 1];
      SilentPositive(es, init);
      assert order == init + [last];
      assert forall i :: i in order <==> i in init || i == last;
    }
  }

  // TOTAL is meant to be the points of the tests whose bodies returned.  For any filter
  // it exceeds that by the points of the finished tests that raised with an empty text:
  // for non-negative points the two agree iff no finished test worth points did so.
  lemma TotalIsReturnedIff(es: seq<Entry>, filter: Filter)
    requires WellFormed(es)
    ensures
      var s := RunTests(es, filter, |es|);
      var order := Order(s.trace);
      && s.total == Returned(es, order) + Silent(es, order)
      && (NonNegative(es) ==>
        (s.total == Returned(es, order) <==>
          !exists i :: i in s.complete && RaisedSilently(es, i) && es[i].points > 0))
  {
    hide Order, Earned, Possible, Returned, Silent, RunTests, NoRepeats, ParentsFirst, Serial, SumEarned, SumPossible;
    RunTestsKeeps(es, filter, |es|);
    var order := Order(RunTests(es, filter, |es|).trace);
    EarnedIsReturnedPlusSilent(es, order);
    if NonNegative(es) {
      SilentPositive(es, order);
    }
  }

  // One bare assert that fails is enough.
  lemma BareAssertScores(filter: Filter)
    requires filter.limit == []
    ensures
      var es := [Test(5, "t", None, Some(""))];
      var s := RunTests(es, filter, 1);
      WellFormed(es) && s.total == 5 && Returned(es, Order(s.trace)) == 0 && !ExitsWithFailure(s)
  {
    var es := [Test(5, "t", None, Some(""))];
    UnfilteredOrder(es, filter, 1);
    UnfilteredTotals(es, filter, 1);
    assert TestsBefore(es, 1) == [0] && [0][..0] == [];
  }

  // ---------- part scores ----------

  // The bodies that ran for the first k entries.
  function OrderAt(es: seq<Entry>, filter: Filter, k: nat): seq<nat>
    requires WellFormed(es) && k <= |es|
  {
    Order(RunTests(es, filter, k).trace)
  }

  // How many entries there are up to the last end of a part that is shown.
  function LastShown(es: seq<Entry>, filter: Filter, k: nat): (p: nat)
    requires k <= |es|
    ensures p <= k
    decreases k
  {
    if k == 0 then 0
    else if es[k - 1].EndPart? && Selected(filter, es[k - 1]) then k
    else LastShown(es, filter, k - 1)
  }

  // The bodies that ran since then.
  function Since(es: seq<Entry>, filter: Filter, k: nat): seq<nat>
    requires WellFormed(es) && k <= |es|
  {
    var before, now := OrderAt(es, filter, LastShown(es, filter, k)), OrderAt(es, filter, k);
    if before <= now then now[|before|..] else now
  }

  // For each end of a part that is shown, the points passed and possible among the tests
  // that ran since the one shown before it.
  function ShownScores(es: seq<Entry>, filter: Filter, k: nat): seq<Score>
    requires WellFormed(es) && k <= |es|
    decreases k
  {
    if k == 0 then []
    else
      var since := Since(es, filter, k - 1);
      ShownScores(es, filter, k - 1) +
      if es[k - 1].EndPart? && Selected(filter, es[k - 1]) then
        [Score(es[k - 1].name, Earned(es, since), Possible(es, since))]
      else []
  }

  lemma {:induction false} SumsAppend(es: seq<Entry>, a: seq<nat>, b: seq<nat>)
    ensures Earned(es, a + b) == Earned(es, a) + Earned(es, b)
    ensures Possible(es, a + b) == Possible(es, a) + Possible(es, b)
  {
    if b == [] {
      assert a + b == a;
    } else {
      var init := b[..|b| - 1];
      assert (a + b)[..|a + b| - 1] == a + init;
      SumsAppend(es, a, init);
    }
  }

  lemma {:induction false} OrderOnlyGrows(es: seq<Entry>, filter: Filter, p: nat, k: nat)
    requires WellFormed(es) && p <= k <= |es|
    ensures OrderAt(es, filter, p) <= OrderAt(es, filter, k)
    decreases k
  {
    hide Order, Consistent, Selected, RunTest, Lineage;
    if p < k {
      OrderOnlyGrows(es, filter, p, k - 1);
      RunTestsKeeps(es, filter, k - 1);
      if es[k - 1].Test? && Selected(filter, es[k - 1]) {
        RunTestKeeps(es, RunTests(es, filter, k - 1), k - 1, {});
      }
    }
  }

  lemma SinceSplits(es: seq<Entry>, filter: Filter, k: nat)
    requires WellFormed(es) && k <= |es|
    ensures OrderAt(es, filter, k) == OrderAt(es, filter, LastShown(es, filter, k)) + Since(es, filter, k)
  {
    hide OrderAt, LastShown;
    OrderOnlyGrows(es, filter, LastShown(es, filter, k), k);
  }

  lemma TotalsAt(es: seq<Entry>, filter: Filter, k: nat)
    requires WellFormed(es) && k <= |es|
    ensures RunTests(es, filter, k).total == Earned(es, OrderAt(es, filter, k))
    ensures RunTests(es, filter, k).possible == Possible(es, OrderAt(es, filter, k))
  {
    hide RunTests, Consistent, Wanted, Order;
    RunTestsKeeps(es, filter, k);
    ConsistentTotals(es, RunTests(es, filter, k));
  }

  lemma SinceAddsUp(es: seq<Entry>, filter: Filter, k: nat)
    requires WellFormed(es) && k <= |es|
    ensures
      var before, since := OrderAt(es, filter, LastShown(es, filter, k)), Since(es, filter, k);
      && RunTests(es, filter, k).total == Earned(es, before) + Earned(es, since)
      && RunTests(es, filter, k).possible == Possible(es, before) + Possible(es, since)
  {
    hide OrderAt, Since, LastShown, RunTests, Earned, Possible;
    SinceSplits(es, filter, k);
    TotalsAt(es, filter, k);
    SumsAppend(es, OrderAt(es, filter, LastShown(es, filter, k)), Since(es, filter, k));
  }

  // For any filter, these are the part scores that are printed.
  lemma {:induction false} FilteredPartScores(es: seq<Entry>, filter: Filter, k: nat)
    requires WellFormed(es) && k <= |es|
    ensures RunTests(es, filter, k).printed == ShownScores(es, filter, k)
    ensures RunTests(es, filter, k).partTotal == Earned(es, OrderAt(es, filter, LastShown(es, filter, k)))
    ensures RunTests(es, filter, k).partPossible == Possible(es, OrderAt(es, filter, LastShown(es, filter, k)))
    decreases k
  {
    hide Consistent, Earned, Possible, RunTest, Since, Selected, Order;
    if k > 0 {
      FilteredPartScores(es, filter, k - 1);
      SinceAddsUp(es, filter, k - 1);
      RunTestsKeeps(es, filter, k - 1);
      RunTestsKeeps(es, filter, k);
      ConsistentTotals(es, RunTests(es, filter, k));
      assert ShownScores(es, filter, k - 1) + [] == ShownScores(es, filter, k - 1);
      if es[k - 1].Test? && Selected(filter, es[k - 1]) {
        RunTestKeeps(es, RunTests(es, filter, k - 1), k - 1, {});
      }
    } else {
      StartIsConsistent(es);
      ConsistentTotals(es, START);
    }
  }

  lemma ConsistentTotals(es: seq<Entry>, s: State)
    requires Consistent(es, s, {})
    ensures s.total == Earned(es, Order(s.trace)) && s.possible == Possible(es, Order(s.trace))
  {
  }

  // ---------- runs without a filter ----------

  function TestsBefore(es: seq<Entry>, k: nat): seq<nat>
    requires k <= |es|
    decreases k
  {
    if k == 0 then [] else TestsBefore(es, k - 1) + if es[k - 1].Test? then [k - 1] else []
  }

  lemma {:induction false} TestsBeforeMembers(es: seq<Entry>, k: nat, i: nat)
    requires k <= |es|
    ensures i in TestsBefore(es, k) <==> i < k && es[i].Test?
    decreases k
  {
    if k > 0 {
      TestsBeforeMembers(es, k - 1, i);
    }
  }

  // A test all of whose predecessors have run only runs its own body.
  lemma RunNextTest(es: seq<Entry>, s: State, i: nat)
    requires WellFormed(es) && i < |es| && es[i].Test?
    requires Tracked(s, {}) && Order(s.trace) == TestsBefore(es, i)
    ensures Order(RunTest(es, s, i).trace) == Order(s.trace) + [i]
  {
    hide Order, TestsBefore;
    assert ParentOk(es, i);
    forall j: nat
      ensures j in s.complete <==> j < i && es[j].Test?
    {
      TestsBeforeMembers(es, i, j);
    }
    var started := s.(complete := s.complete + {i});
    if es[i].parent.Some? {
      assert RunTest(es, started, es[i].parent.value) == started;
    }
    OrderGrows(s.trace, i, es[i].Fails());
  }

  lemma UnfilteredEntryOrder(es: seq<Entry>, filter: Filter, s: State, k: nat)
    requires filter.limit == [] && WellFormed(es) && k < |es|
    requires Tracked(s, {}) && Order(s.trace) == TestsBefore(es, k)
    ensures Order(RunEntry(es, filter, s, k).trace) == TestsBefore(es, k + 1)
  {
    hide Order, Tracked, RunTest;
    if es[k].Test? {
      RunNextTest(es, s, k);
    } else {
      assert TestsBefore(es, k + 1) == TestsBefore(es, k) + [];
    }
  }

  // Without a filter the bodies run in the order of registration.
  lemma {:induction false} UnfilteredOrder(es: seq<Entry>, filter: Filter, k: nat)
    requires filter.limit == [] && WellFormed(es) && k <= |es|
    ensures Order(RunTests(es, filter, k).trace) == TestsBefore(es, k)
    decreases k
  {
    hide Order, RunEntry, Tracked, Sequenced, Counted, Wanted;
    if k > 0 {
      UnfilteredOrder(es, filter, k - 1);
      RunTestsKeeps(es, filter, k - 1);
      UnfilteredEntryOrder(es, filter, RunTests(es, filter, k - 1), k - 1);
    } else {
      StartIsConsistent(es);
    }
  }

  lemma UnfilteredTotals(es: seq<Entry>, filter: Filter, k: nat)
    requires filter.limit == [] && WellFormed(es) && k <= |es|
    ensures RunTests(es, filter, k).total == RangeEarned(es, 0, k)
    ensures RunTests(es, filter, k).possible == RangePossible(es, 0, k)
  {
    hide Order, RunTests, RangeEarned, RangePossible, SumEarned, SumPossible;
    RunTestsKeeps(es, filter, k);
    UnfilteredOrder(es, filter, k);
    TestsBeforeSums(es, k);
  }

  // Where the part that entry k belongs to begins.
  function PartStart(es: seq<Entry>, k: nat): (start: nat)
    requires k <= |es|
    ensures start <= k
    decreases k
  {
    if k == 0 then 0 else if es[k - 1].EndPart? then k else PartStart(es, k - 1)
  }

  function RangePossible(es: seq<Entry>, from: nat, upto: nat): int
    requires from <= upto <= |es|
    decreases upto
  {
    if from == upto then 0
    else RangePossible(es, from, upto - 1) + if es[upto - 1].Test? then es[upto - 1].points else 0
  }

  function RangeEarned(es: seq<Entry>, from: nat, upto: nat): int
    requires from <= upto <= |es|
    decreases upto
  {
    if from == upto then 0
    else
      RangeEarned(es, from, upto - 1) +
      if es[upto - 1].Test? && !es[upto - 1].Fails() then es[upto - 1].points else 0
  }

  // For each end of a part, the points among the tests registered since the previous
  // one.
  function PartScores(es: seq<Entry>, k: nat): seq<Score>
    requires k <= |es|
    decreases k
  {
    if k == 0 then []
    else
      var start := PartStart(es, k - 1);
      PartScores(es, k - 1) +
      if es[k - 1].EndPart? then
        [Score(es[k - 1].name, RangeEarned(es, start, k - 1), RangePossible(es, start, k - 1))]
      else []
  }

  lemma {:induction false} RangeSplits(es: seq<Entry>, mid: nat, upto: nat)
    requires mid <= upto <= |es|
    ensures RangeEarned(es, 0, upto) == RangeEarned(es, 0, mid) + RangeEarned(es, mid, upto)
    ensures RangePossible(es, 0, upto) == RangePossible(es, 0, mid) + RangePossible(es, mid, upto)
    decreases upto
  {
    if mid < upto {
      RangeSplits(es, mid, upto - 1);
    }
  }

  lemma SumsSnoc(es: seq<Entry>, order: seq<nat>, i: nat)
    requires i < |es| && es[i].Test?
    ensures Earned(es, order + [i]) == Earned(es, order) + if es[i].Fails() then 0 else es[i].points
    ensures Possible(es, order + [i]) == Possible(es, order) + es[i].points
  {
    assert (order + [i])[..|order|] == order;
  }

  lemma {:induction false} TestsBeforeSums(es: seq<Entry>, k: nat)
    requires k <= |es|
    ensures Earned(es, TestsBefore(es, k)) == RangeEarned(es, 0, k)
    ensures Possible(es, TestsBefore(es, k)) == RangePossible(es, 0, k)
    decreases k
  {
    hide Earned, Possible;
    if k > 0 {
      TestsBeforeSums(es, k - 1);
      var order := TestsBefore(es, k - 1);
      if es[k - 1].Test? {
        SumsSnoc(es, order, k - 1);
      } else {
        assert order + [] == order;
      }
    } else {
      NothingEarned(es);
    }
  }

  lemma NothingEarned(es: seq<Entry>)
    ensures Earned(es, []) == 0 && Possible(es, []) == 0
  {
  }

  // Without a filter each printed part score is exactly the points passed and
  // possible among the tests registered since the previous end of a part.
  lemma {:induction false} UnfilteredPartScores(es: seq<Entry>, filter: Filter, k: nat)
    requires filter.limit == [] && WellFormed(es) && k <= |es|
    ensures RunTests(es, filter, k).printed == PartScores(es, k)
    ensures RunTests(es, filter, k).partTotal == RangeEarned(es, 0, PartStart(es, k))
    ensures RunTests(es, filter, k).partPossible == RangePossible(es, 0, PartStart(es, k))
    decreases k
  {
    hide Consistent, RangePossible, RangeEarned, RunTest;
    if k > 0 {
      UnfilteredPartScores(es, filter, k - 1);
      UnfilteredTotals(es, filter, k - 1);
      RangeSplits(es, PartStart(es, k - 1), k - 1);
      var s := RunTests(es, filter, k - 1);
      if es[k - 1].Test? {
        RunTestsKeeps(es, filter, k - 1);
        RunTestKeeps(es, s, k - 1, {});
        assert PartScores(es, k) == PartScores(es, k - 1) + [];
      } else {
        EndPartAddsNothing(es, k);
      }
    } else {
      EmptyRange(es);
    }
  }

  lemma EndPartAddsNothing(es: seq<Entry>, k: nat)
    requires 0 < k <= |es| && es[k - 1].EndPart?
    ensures RangeEarned(es, 0, k) == RangeEarned(es, 0, k - 1)
    ensures RangePossible(es, 0, k) == RangePossible(es, 0, k - 1)
  {
  }

  lemma EmptyRange(es: seq<Entry>)
    ensures RangeEarned(es, 0, 0) == 0 && RangePossible(es, 0, 0) == 0
  {
  }
}
