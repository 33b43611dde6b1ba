// A whole QEMU test, from starting QEMU to its final output: the objects put together
// as run_qemu does, with any monitors.
module Sessions {
  import opened Basics
  import opened Text
  import opened Lines
  import opened Monitors
  import opened Output
  import opened Reactor
  import Framing
  import Gdb
  import LinesMatch
  import opened Runner

  // The monitors a run is given: `save`, `call_on_line` or `stop_on_line`, and
  // `stop_breakpoint`.
  datatype Setup = SaveLog | OnMatch(watch: Watch) | BreakAt(addr: int)

  // Setting one up registers a callback or sends a command.
  ghost function Callbacks(setup: Setup): seq<Monitor> {
    match setup
    case SaveLog => [Save([])]
    case OnMatch(watch) => [OnLine(watch, NOTHING_HEARD)]
    case BreakAt(_) => []
  }

  ghost function Breaks(setup: Setup): seq<string> {
    if setup.BreakAt? then [Gdb.BreakpointCmd(setup.addr)] else []
  }

  ghost function MonitorsOf(setups: seq<Setup>): seq<Monitor> {
    if setups == [] then []
    else MonitorsOf(setups[..|setups| - 1]) + Callbacks(setups[|setups| - 1])
  }

  ghost function BreaksOf(setups: seq<Setup>): seq<string> {
    if setups == [] then []
    else BreaksOf(setups[..|setups| - 1]) + Breaks(setups[|setups| - 1])
  }

  // When the monitors have been set up: the output of the start-up phase has been read,
  // and the callbacks are registered in order.
  ghost function Begin(base: seq<byte>, setups: seq<Setup>, qemuStream: seq<byte>, gdbStream: seq<byte>): System {
    System(Qemu(true, base, DecodeUtf8(base), MonitorsOf(setups), []), Gdb.FRESH, qemuStream, gdbStream)
  }

  // How many callbacks the first i set-ups register: the others are breakpoints.
  function Position(setups: seq<Setup>, i: nat): (k: nat)
    requires i <= |setups|
    ensures k <= i
  {
    if i == 0 then 0 else Position(setups, i - 1) + if setups[i - 1].BreakAt? then 0 else 1
  }

  lemma SetupsUnfold(init: seq<Setup>, last: Setup)
    ensures
      var setups := init + [last];
      && MonitorsOf(setups) == MonitorsOf(init) + Callbacks(last)
      && BreaksOf(setups) == BreaksOf(init) + Breaks(last)
      && Position(setups, |setups|) == Position(init, |init|) + (if last.BreakAt? then 0 else 1)
      && forall i :: 0 <= i <= |init| ==> Position(setups, i) == Position(init, i)
  {
    hide Callbacks, Breaks;
    var setups := init + [last];
    assert setups[..|init|] == init;
    forall i | 0 <= i <= |init|
      ensures Position(setups, i) == Position(init, i)
    {
      PositionInPrefix(setups, |init|, i);
    }
  }

  lemma NoSetups()
    ensures MonitorsOf([]) == [] && BreaksOf([]) == []
  {
  }

  // Each set-up registers the callback it stands for, after those of the set-ups before
  // it, or sends its breakpoint after those before it.
  lemma {:induction false} SetupsAreDone(setups: seq<Setup>, i: nat)
    requires i < |setups|
    ensures IsDone(setups, i, Position(setups, i), Position(setups, |setups|))
  {
    hide MonitorsOf, BreaksOf, Position, Gdb.BreakpointCmd, Gdb.ReadBreakpoint;
    var init, last := setups[..|setups| - 1], setups[|setups| - 1];
    assert setups == init + [last];
    SetupsUnfold(init, last);
    SetupCounts(init);
    if i < |init| {
      SetupsAreDone(init, i);
    } else if last.BreakAt? {
      Gdb.BreakpointReadBack(last.addr);
    }
  }

  // Set-up i is the k-th of n that register a callback, if it is one of them.
  ghost predicate IsDone(setups: seq<Setup>, i: nat, k: nat, n: nat)
    requires k <= i < |setups|
  {
    && |MonitorsOf(setups)| == n && |BreaksOf(setups)| == |setups| - n
    && match setups[i]
       case SaveLog => k < n && MonitorsOf(setups)[k] == Save([])
       case OnMatch(watch) => k < n && MonitorsOf(setups)[k] == OnLine(watch, LineState([], [], []))
       case BreakAt(addr) =>
         && i - k < |setups| - n
         && Gdb.ReadBreakpoint(BreaksOf(setups)[i - k]) == Some(Gdb.Point("Z1", addr, "1"))
  }

  lemma {:induction false} SetupCounts(setups: seq<Setup>)
    ensures |MonitorsOf(setups)| == Position(setups, |setups|)
    ensures |BreaksOf(setups)| == |setups| - Position(setups, |setups|)
  {
    hide MonitorsOf, BreaksOf;
    if setups == [] {
      NoSetups();
    } else {
      var init, last := setups[..|setups| - 1], setups[|setups| - 1];
      assert setups == init + [last];
      SetupsUnfold(init, last);
      SetupCounts(init);
    }
  }

  lemma {:induction false} PositionInPrefix(setups: seq<Setup>, n: nat, i: nat)
    requires i <= n <= |setups|
    ensures Position(setups[..n], i) == Position(setups, i)
    decreases i
  {
    if i > 0 {
      PositionInPrefix(setups, n, i - 1);
    }
  }

  // And no callback is registered but for a set-up.
  lemma {:induction false} MonitorIsSetup(setups: seq<Setup>, k: nat) returns (i: nat)
    requires k < |MonitorsOf(setups)|
    ensures i < |setups| && !setups[i].BreakAt? && Position(setups, i) == k
    decreases |setups|
  {
    var n := |setups| - 1;
    if k < |MonitorsOf(setups[..n])| {
      i := MonitorIsSetup(setups[..n], k);
    } else {
      i := n;
      SetupCounts(setups[..n]);
    }
    PositionInPrefix(setups, n, i);
  }

  lemma {:induction false} MonitorsAreFresh(setups: seq<Setup>)
    ensures forall k :: 0 <= k < |MonitorsOf(setups)| ==>
      match MonitorsOf(setups)[k]
      case Save(written) => written == []
      case OnLine(_, state) => state == NOTHING_HEARD
    ensures forall k :: 0 <= k < |MonitorsOf(setups)| && MonitorsOf(setups)[k].OnLine? ==>
      OnMatch(MonitorsOf(setups)[k].watch) in setups
  {
    if setups != [] {
      MonitorsAreFresh(setups[..|setups| - 1]);
    }
  }

  lemma BeginIsSound(base: seq<byte>, setups: seq<Setup>, qemuStream: seq<byte>, gdbStream: seq<byte>)
    ensures Sound(Begin(base, setups, qemuStream, gdbStream), base)
    ensures NeverRaised(Begin(base, setups, qemuStream, gdbStream).qemu.history)
  {
    hide MonitorsOf, DecodeUtf8;
    MonitorsAreFresh(setups);
    RegisteredIsAccounted(Begin(base, setups, qemuStream, gdbStream).qemu);
    Gdb.FreshIsConsistent();
  }

  // What the whole run leaves behind, for any pieces the output arrives in.  A log is
  // complete if no line watcher was set up before it.
  lemma SessionOutcome(base: seq<byte>, setups: seq<Setup>, qemuStream: seq<byte>, gdbStream: seq<byte>,
                       main: seq<Round>, shutdown: seq<Round>)
    ensures
      var final := Reactor.RunQemu(Begin(base, setups, qemuStream, gdbStream), main, shutdown);
      && final.qemu.output == DecodeUtf8(final.qemu.outbytes)
      && final.qemu.outbytes + final.qemuLeft == base + qemuStream
      && final.gdb.received + final.gdbLeft == gdbStream
      && SameKinds(MonitorsOf(setups), final.qemu.monitors)
      && LogsAreComplete(final.qemu, base)
      && ClosedAtEnd(final.qemu)
  {
    hide DecodeUtf8, Reactor.React, Accounted, Gdb.Consistent, Heard, MonitorsOf, SameKinds;
    var start := Begin(base, setups, qemuStream, gdbStream);
    BeginIsSound(base, setups, qemuStream, gdbStream);
    ReactConserves(start, base, main);
    var after := Reactor.React(start, main).0;
    ReactConserves(after, base, shutdown);
    ReactKeepsKinds(start, main);
    ReactKeepsKinds(after, shutdown);
    SameKindsTransitive(start, main, shutdown);
    ReactKeepsClosedAtEnd(start, main);
    ReactKeepsClosedAtEnd(after, shutdown);
    assert [] + gdbStream == gdbStream;
    var final := Reactor.RunQemu(start, main, shutdown);
    SoundOutput(final, base);
    forall k: nat | LogFirst(final.qemu.monitors, k)
      ensures base + Heard(final.qemu.monitors[k]) == final.qemu.outbytes
    {
      LogBeforeWatchersIsComplete(final.qemu, base, k);
    }
  }

  ghost predicate SameKinds(before: seq<Monitor>, after: seq<Monitor>) {
    |after| == |before| && forall k :: 0 <= k < |before| ==> SameKind(before[k], after[k])
  }

  // Monitor k and all before it are logs.
  predicate LogFirst(monitors: seq<Monitor>, k: nat) {
    k < |monitors| && forall j :: 0 <= j <= k ==> monitors[j].Save?
  }

  ghost predicate LogsAreComplete(q: Qemu, base: seq<byte>) {
    forall k: nat :: LogFirst(q.monitors, k) ==> base + Heard(q.monitors[k]) == q.outbytes
  }

  lemma SameKindsTransitive(start: System, main: seq<Round>, shutdown: seq<Round>)
    requires SameKinds(start.qemu.monitors, Reactor.React(start, main).0.qemu.monitors)
    requires
      var after := Reactor.React(start, main).0;
      SameKinds(after.qemu.monitors, Reactor.React(after, shutdown).0.qemu.monitors)
    ensures SameKinds(start.qemu.monitors, Reactor.RunQemu(start, main, shutdown).qemu.monitors)
  {
    hide Reactor.React;
  }

  lemma {:induction false} ReactKeepsKinds(s: System, rounds: seq<Round>)
    ensures SameKinds(s.qemu.monitors, Reactor.React(s, rounds).0.qemu.monitors)
    decreases |rounds|
  {
    hide DecodeUtf8, Deliver, Gdb.Read;
    if rounds != [] && rounds[0].Select? && (s.qemu.open || s.gdb.open) {
      var qemu, gdb := rounds[0].qemu, rounds[0].gdb;
      if qemu.Some? {
        ReadKeepsKinds(s.qemu, s.qemuLeft[..Length(|s.qemuLeft|, qemu.value)]);
      }
      if !Turn(s, qemu, gdb).1 {
        ReactKeepsKinds(Turn(s, qemu, gdb).0, rounds[1..]);
      }
    }
  }

  // Whatever watcher for whatever pattern r ends the main loop: r.match finds in the
  // output what a stop promises.
  ghost predicate StopsAreFound(stopped: Qemu, base: seq<byte>, setups: seq<Setup>, output: string) {
    forall i: nat, m: LinesMatch.Matcher, r: string :: WatchesFor(setups, i, m, r) ==>
      StopIsFound(stopped, base, Position(setups, i), m, r, output)
  }

  ghost predicate StopIsFound(stopped: Qemu, base: seq<byte>, k: nat, m: LinesMatch.Matcher, r: string,
                              output: string) {
    StoppedBy(stopped, k) ==> StopFound(stopped.monitors, base, k, m, r, output)
  }

  // Set-up i watches for the lines that pattern r matches.
  ghost predicate WatchesFor(setups: seq<Setup>, i: nat, m: LinesMatch.Matcher, r: string) {
    && i < |setups| && setups[i].OnMatch?
    && forall t :: setups[i].watch.matches(t) <==> m(r, t)
  }

  lemma SessionStop(base: seq<byte>, setups: seq<Setup>, qemuStream: seq<byte>, gdbStream: seq<byte>,
                    main: seq<Round>, shutdown: seq<Round>)
    ensures
      var start := Begin(base, setups, qemuStream, gdbStream);
      StopsAreFound(Reactor.React(start, main).0.qemu, base, setups,
                    Reactor.RunQemu(start, main, shutdown).qemu.output)
  {
    hide Reactor.React, Reactor.RunQemu, Sound, StopFound, StoppedBy, MonitorsOf, DecodeUtf8, Position;
    var start := Begin(base, setups, qemuStream, gdbStream);
    BeginIsSound(base, setups, qemuStream, gdbStream);
    forall i: nat, m: LinesMatch.Matcher, r: string | WatchesFor(setups, i, m, r)
      ensures StopIsFound(Reactor.React(start, main).0.qemu, base, Position(setups, i), m, r,
                          Reactor.RunQemu(start, main, shutdown).qemu.output)
    {
      SetupsAreDone(setups, i);
      assert Watches(start, Position(setups, i), m, r);
      StopMeansMatch(start, base, main, shutdown, Position(setups, i), m, r);
    }
  }

  // Line l of what was heard matches the pattern of set-up i.
  ghost predicate SetupMatches(setups: seq<Setup>, i: nat, heard: seq<byte>, l: seq<byte>) {
    i < |setups| && setups[i].OnMatch? && l in Completed(heard) && setups[i].watch.matches(DecodeUtf8(l))
  }

  // If every line watcher is a stop_on_line, a monitor ends the main loop exactly when
  // some watcher's pattern matches a line completed since the monitors were set up.
  lemma SessionStopsIff(base: seq<byte>, setups: seq<Setup>, qemuStream: seq<byte>, gdbStream: seq<byte>,
                        main: seq<Round>)
    requires forall watch :: OnMatch(watch) in setups ==> forall calls, text :: watch.raises(calls, text)
    ensures
      var q := Reactor.React(Begin(base, setups, qemuStream, gdbStream), main).0.qemu;
      && q.outbytes == base + AllRead(q.history)
      && (StoppedByMonitor(q) <==> exists i, l :: SetupMatches(setups, i, AllRead(q.history), l))
  {
    hide Reactor.React, MonitorsOf, SomeLineMatches, DecodeUtf8, Accounted, AllRead;
    var start := Begin(base, setups, qemuStream, gdbStream);
    BeginIsSound(base, setups, qemuStream, gdbStream);
    MonitorsAreFresh(setups);
    StoppedByMonitorIff(start, base, main);
    ReactConserves(start, base, main);
    var q := Reactor.React(start, main).0.qemu;
    AccountedBytes(q, base);
    MatchesIff(setups, AllRead(q.history));
  }

  lemma MatchesIff(setups: seq<Setup>, heard: seq<byte>)
    ensures SomeLineMatches(MonitorsOf(setups), heard) <==> exists i, l :: SetupMatches(setups, i, heard, l)
  {
    hide MonitorsOf, Completed, DecodeUtf8, Position;
    if k: nat, l :| MatchesLine(MonitorsOf(setups), k, heard, l) {
      var i := MonitorIsSetup(setups, k);
      SetupsAreDone(setups, i);
      assert SetupMatches(setups, i, heard, l);
    }
    if i: nat, l :| SetupMatches(setups, i, heard, l) {
      SetupsAreDone(setups, i);
      assert MatchesLine(MonitorsOf(setups), Position(setups, i), heard, l);
    }
  }

  lemma AccountedBytes(q: Qemu, base: seq<byte>)
    requires Accounted(q, base)
    ensures q.outbytes == base + AllRead(q.history)
  {
  }

  // What the stub reads in a run: the breakpoints in the order of their set-ups, the
  // continue command, and the kill command unless the stub is gone by then.
  ghost predicate CommandsRead(commands: seq<string>, setups: seq<Setup>, failed: bool) {
    var breaks := |setups| - Position(setups, |setups|);
    && |commands| >= breaks
    && commands[breaks..] == (if failed then ["c"] else ["c", "k"])
    && forall i :: 0 <= i < |setups| && setups[i].BreakAt? ==>
         BreakRead(commands, i - Position(setups, i), setups[i].addr)
  }

  ghost predicate BreakRead(commands: seq<string>, j: int, addr: int) {
    0 <= j < |commands| && Gdb.ReadBreakpoint(commands[j]) == Some(Gdb.Point("Z1", addr, "1"))
  }

  lemma BreaksAreRead(setups: seq<Setup>, end: seq<string>, failed: bool)
    requires end == if failed then ["c"] else ["c", "k"]
    ensures CommandsRead(BreaksOf(setups) + end, setups, failed)
  {
    hide BreaksOf, Position, Gdb.ReadBreakpoint;
    SetupCounts(setups);
    forall i | 0 <= i < |setups| && setups[i].BreakAt?
      ensures BreakRead(BreaksOf(setups) + end, i - Position(setups, i), setups[i].addr)
    {
      SetupsAreDone(setups, i);
    }
  }

  // A file with no watcher set up before it holds all output since then.
  ghost predicate LogFilesAreComplete(qemu: QemuController, base: seq<byte>, setups: seq<Setup>)
    reads qemu, qemu.Footprint()
  {
    forall i :: 0 <= i < |setups| && setups[i].SaveLog? && (forall j :: 0 <= j < i ==> !setups[j].OnMatch?) ==>
      LogFileIsComplete(qemu, base, Position(setups, i))
  }

  ghost predicate LogFileIsComplete(qemu: QemuController, base: seq<byte>, k: nat)
    reads qemu, qemu.Footprint()
  {
    && k < |qemu.onOutput| && qemu.onOutput[k].WriteTo?
    && base + qemu.onOutput[k].log.written == qemu.outbytes
  }

  lemma FilesAreComplete(qemu: QemuController, base: seq<byte>, setups: seq<Setup>)
    requires LogsAreComplete(qemu.View(), base) && SameKinds(MonitorsOf(setups), qemu.Views())
    ensures LogFilesAreComplete(qemu, base, setups)
  {
    hide MonitorsOf, Position, LogFileIsComplete;
    forall i | 0 <= i < |setups| && setups[i].SaveLog? && forall j :: 0 <= j < i ==> !setups[j].OnMatch?
      ensures LogFileIsComplete(qemu, base, Position(setups, i))
    {
      var k := Position(setups, i);
      SetupsAreDone(setups, i);
      forall j: nat | j <= k
        ensures qemu.Views()[j].Save?
      {
        LogsAtFirst(setups, i, j);
        assert SameKind(MonitorsOf(setups)[j], qemu.Views()[j]);
      }
      assert LogFirst(qemu.Views(), k);
      FileIsView(qemu, base, k);
    }
  }

  lemma FileIsView(qemu: QemuController, base: seq<byte>, k: nat)
    requires k < |qemu.Views()| && qemu.Views()[k].Save?
    requires base + Heard(qemu.Views()[k]) == qemu.outbytes
    ensures LogFileIsComplete(qemu, base, k)
  {
  }

  lemma {:induction false} PositionGrows(setups: seq<Setup>, i: nat, j: nat)
    requires i <= j <= |setups|
    ensures Position(setups, i) <= Position(setups, j)
    ensures i < j && !setups[i].BreakAt? ==> Position(setups, i) < Position(setups, j)
    decreases j
  {
    if i < j {
      PositionGrows(setups, i, j - 1);
    }
  }

  lemma LogsAtFirst(setups: seq<Setup>, i: nat, j: nat)
    requires i < |setups| && setups[i].SaveLog? && forall j :: 0 <= j < i ==> !setups[j].OnMatch?
    requires j <= Position(setups, i)
    ensures j < |MonitorsOf(setups)| && MonitorsOf(setups)[j].Save?
  {
    hide Position, MonitorsOf;
    SetupsAreDone(setups, i);
    var p := MonitorIsSetup(setups, j);
    SetupsAreDone(setups, p);
    if i < p {
      PositionGrows(setups, i, p);
    }
  }

  // The monitors are set up after the start-up phase has read some output; then the
  // main loop and the shutdown loop run.  Nothing is lost, logs are complete, the stub
  // reads the breakpoints and is told to continue and then killed, a stop means what
  // r.match finds, and a shutdown that finishes leaves QEMU's whole stream in the output.
  // Without a kill command the stub's stream has ended or failed before.
  method WatchedRun(startup: seq<seq<byte>>, setups: seq<Setup>, qemuStream: seq<byte>, gdbStream: seq<byte>,
                    main: seq<Round>, shutdown: seq<Round>)
    returns (runner: Runner, failed: bool)
    requires forall i :: 0 <= i < |startup| ==> startup[i] != []
    ensures fresh(runner) && runner.Valid()
    ensures
      var base := Concat(startup);
      var start := Begin(base, setups, qemuStream, gdbStream);
      var after := Reactor.React(start, main).0;
      && runner.View() == Reactor.RunQemu(start, main, shutdown)
      && runner.qemu.output == DecodeUtf8(runner.qemu.outbytes)
      && runner.qemu.outbytes + runner.qemuPipe.left == base + qemuStream
      && LogFilesAreComplete(runner.qemu, base, setups)
      && StopsAreFound(after.qemu, base, setups, runner.qemu.output)
      && CommandsRead(runner.gdb.Commands(), setups, failed)
      && (failed <==> !after.gdb.open)
      && (failed ==> runner.gdbPipe.left == [] || exists i :: FailsAt(main, i))
      && (!failed && FinishesQemu(after, shutdown) ==>
        !runner.qemu.proc && runner.qemu.outbytes == base + qemuStream)
  {
    hide DecodeUtf8, Reactor.React, Reactor.RunQemu, Gdb.Consistent, StopsAreFound, Begin, Concat, SameKinds, Sound,
      LogsAreComplete, Framing.Packets, Framing.Residue, DecodeAscii, MonitorsOf, BreaksOf, LogFilesAreComplete,
      CommandsRead, FinishesQemu, ClosedAtEnd;
    var base := Concat(startup);
    ghost var start := Begin(base, setups, qemuStream, gdbStream);
    runner := SetUp(startup, setups, qemuStream, gdbStream);
    failed := runner.RunQemu(main, shutdown);
    SessionOutcome(base, setups, qemuStream, gdbStream, main, shutdown);
    SessionStop(base, setups, qemuStream, gdbStream, main, shutdown);
    SessionShutdown(base, setups, qemuStream, gdbStream, main, shutdown);
    FilesAreComplete(runner.qemu, base, setups);
    BreaksAreRead(setups, if failed then ["c"] else ["c", "k"], failed);
  }

  // How the shutdown leaves QEMU and the stub.
  lemma SessionShutdown(base: seq<byte>, setups: seq<Setup>, qemuStream: seq<byte>, gdbStream: seq<byte>,
                        main: seq<Round>, shutdown: seq<Round>)
    ensures
      var start := Begin(base, setups, qemuStream, gdbStream);
      var after := Reactor.React(start, main).0;
      var final := Reactor.RunQemu(start, main, shutdown);
      && (!after.gdb.open ==> final.gdbLeft == [] || exists i :: FailsAt(main, i))
      && (after.gdb.open && FinishesQemu(after, shutdown) ==>
        !final.qemu.open && final.qemu.outbytes == base + qemuStream)
  {
    hide Reactor.React, Sound, FinishesQemu, MonitorsOf, DecodeUtf8;
    var start := Begin(base, setups, qemuStream, gdbStream);
    BeginIsSound(base, setups, qemuStream, gdbStream);
    ShutdownReadsOn(start, base, main, shutdown);
    GdbStaysOpen(start, main);
  }

  method SetUp(startup: seq<seq<byte>>, setups: seq<Setup>, qemuStream: seq<byte>, gdbStream: seq<byte>)
    returns (runner: Runner)
    requires forall i :: 0 <= i < |startup| ==> startup[i] != []
    ensures Prepared(runner, Begin(Concat(startup), setups, qemuStream, gdbStream), BreaksOf(setups))
    ensures fresh(runner) && fresh(runner.qemu) && fresh(runner.gdb)
    ensures fresh(runner.qemuPipe) && fresh(runner.gdbPipe) && fresh(runner.qemu.Footprint())
  {
    hide Prepared, BreaksOf, Begin, Concat;
    runner := Connect(startup, qemuStream, gdbStream);
    BeginEmpty(Concat(startup), qemuStream, gdbStream);
    SetUpAll(runner, Concat(startup), setups, qemuStream, gdbStream);
  }

  // The loop over the monitors.
  method SetUpAll(runner: Runner, ghost base: seq<byte>, setups: seq<Setup>, ghost qemuStream: seq<byte>,
                  ghost gdbStream: seq<byte>)
    requires Prepared(runner, Begin(base, [], qemuStream, gdbStream), BreaksOf([]))
    modifies runner.qemu`onOutput, runner.gdb`sent
    ensures Prepared(runner, Begin(base, setups, qemuStream, gdbStream), BreaksOf(setups))
    ensures fresh(runner.qemu.Footprint() - old(runner.qemu.Footprint()))
  {
    hide Prepared, BreaksOf, Begin;
    for i := 0 to |setups|
      invariant Prepared(runner, Begin(base, setups[..i], qemuStream, gdbStream), BreaksOf(setups[..i]))
      invariant fresh(runner.qemu.Footprint() - old(runner.qemu.Footprint()))
    {
      BeginSnoc(base, setups[..i], setups[i], qemuStream, gdbStream);
      assert setups[..i] + [setups[i]] == setups[..i + 1];
      SetUpOne(runner, Begin(base, setups[..i], qemuStream, gdbStream), BreaksOf(setups[..i]), setups[i]);
    }
    assert setups[..|setups|] == setups;
  }

  function Registered(s: System, more: seq<Monitor>): System {
    s.(qemu := s.qemu.(monitors := s.qemu.monitors + more))
  }

  lemma BeginEmpty(base: seq<byte>, qemuStream: seq<byte>, gdbStream: seq<byte>)
    ensures Begin(base, [], qemuStream, gdbStream) ==
      System(Qemu(true, base, DecodeUtf8(base), [], []), Gdb.FRESH, qemuStream, gdbStream)
    ensures BreaksOf([]) == []
  {
  }

  lemma BeginSnoc(base: seq<byte>, setups: seq<Setup>, last: Setup, qemuStream: seq<byte>, gdbStream: seq<byte>)
    ensures Begin(base, setups + [last], qemuStream, gdbStream) ==
      Registered(Begin(base, setups, qemuStream, gdbStream), Callbacks(last))
    ensures BreaksOf(setups + [last]) == BreaksOf(setups) + Breaks(last)
  {
    hide DecodeUtf8, Callbacks, Breaks;
    assert (setups + [last])[..|setups|] == setups;
  }

  // The runner is in this state, and the stub is connected and has read these commands.
  ghost predicate Prepared(runner: Runner, s: System, commands: seq<string>)
    reads runner, runner.qemu, runner.gdb, runner.qemuPipe, runner.gdbPipe, runner.qemu.Footprint()
  {
    Ready(runner) && runner.View() == s && runner.gdb.Commands() == commands
  }

  ghost predicate Ready(runner: Runner)
    reads runner, runner.qemu, runner.gdb
  {
    runner.Valid() && runner.gdb.open && runner.gdb.Settled()
  }

  method SetUpOne(runner: Runner, ghost s: System, ghost commands: seq<string>, setup: Setup)
    requires Prepared(runner, s, commands)
    modifies runner.qemu`onOutput, runner.gdb`sent
    ensures Prepared(runner, Registered(s, Callbacks(setup)), commands + Breaks(setup))
    ensures fresh(runner.qemu.Footprint() - old(runner.qemu.Footprint()))
  {
    hide Gdb.Consistent, Framing.Packets, Framing.Residue, DecodeAscii, NOTHING_HEARD, Gdb.BreakpointCmd;
    match setup
    case SaveLog =>
      var log := new LogFile();
      assert runner.View() == old(runner.View()) by {
        assert runner.qemu.Views() == old(runner.qemu.Views());
      }
      runner.Save(log);
    case OnMatch(watch) =>
      runner.CallOnLine(watch);
    case BreakAt(addr) =>
      runner.SetBreakpoint(addr);
  }

  // QEMU and its stub connected, with no monitor yet.
  method Connect(startup: seq<seq<byte>>, qemuStream: seq<byte>, gdbStream: seq<byte>) returns (runner: Runner)
    requires forall i :: 0 <= i < |startup| ==> startup[i] != []
    ensures fresh(runner) && fresh(runner.qemu) && fresh(runner.gdb)
    ensures fresh(runner.qemuPipe) && fresh(runner.gdbPipe)
    ensures Prepared(runner, System(Qemu(true, Concat(startup), DecodeUtf8(Concat(startup)), [], []), Gdb.FRESH,
                                    qemuStream, gdbStream), [])
    ensures runner.qemu.Footprint() == {}
  {
    hide DecodeUtf8, Gdb.Consistent, Framing.Packets, Framing.Residue, DecodeAscii;
    var qemuPipe := new Pipe(qemuStream);
    var gdbPipe := new Pipe(gdbStream);
    var qemu := StartUp(startup);
    var gdb := new Gdb.GdbClient();
    assert qemu.Footprint() == {};
    runner := new Runner(qemu, gdb, qemuPipe, gdbPipe);
  }

  // QEMU as it is when the start-up phase has read these chunks.
  method StartUp(startup: seq<seq<byte>>) returns (qemu: QemuController)
    requires forall i :: 0 <= i < |startup| ==> startup[i] != []
    ensures fresh(qemu) && qemu.Valid() && qemu.onOutput == []
    ensures qemu.View() == Qemu(true, Concat(startup), DecodeUtf8(Concat(startup)), [], [])
  {
    qemu := new QemuController();
    for i := 0 to |startup|
      invariant fresh(qemu) && qemu.Valid() && qemu.onOutput == [] && qemu.proc
      invariant qemu.outbytes == Concat(startup[..i]) && qemu.output == DecodeUtf8(qemu.outbytes)
    {
      assert startup[..i + 1] == startup[..i] + [startup[i]];
      ConcatSnoc(startup[..i], startup[i]);
      var raised := qemu.HandleRead(startup[i]);
    }
    assert startup[..|startup|] == startup;
    qemu.ClearMonitors();
  }
}
