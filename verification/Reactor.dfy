// The reactor loop over QEMU and its GDB stub as a state machine, and what holds in
// every run of it.
module Reactor {
  import opened Basics
  import opened Text
  import opened Lines
  import opened Monitors
  import Framing
  import Gdb
  import LinesMatch
  import opened Output

  const READ_SIZE: nat := 4096

  // Both reactors, and the bytes their peers will still send before closing.
  datatype System = System(qemu: Qemu, gdb: Gdb.Client, qemuLeft: seq<byte>, gdbLeft: seq<byte>)

  // What recv does: deliver up to n bytes, or fail.
  datatype Arrival = Bytes(n: nat) | Failure

  // One pass of the loop: the deadline has passed, or select reports descriptors.
  datatype Round = Deadline | Select(qemu: Option<nat>, gdb: Option<Arrival>)

  // How much a read of a ready descriptor gets: at least one byte and at most a
  // buffer, unless the peer has closed.
  function Length(left: nat, n: nat): (k: nat)
    ensures k <= left && k <= 4096
    ensures k == 0 <==> left == 0
    ensures 1 <= n <= 4096 && n <= left ==> k == n
  {
    var wanted := if n == 0 then 1 else if n > READ_SIZE then READ_SIZE else n;
    if wanted < left then wanted else left
  }

  function QemuTurn(s: System, n: nat): (System, bool) {
    var k := Length(|s.qemuLeft|, n);
    var (qemu, raised) := Output.Read(s.qemu, s.qemuLeft[..k]);
    (s.(qemu := qemu, qemuLeft := s.qemuLeft[k..]), raised)
  }

  function GdbTurn(s: System, a: Arrival): (System, bool) {
    var k := if a.Bytes? then Length(|s.gdbLeft|, a.n) else 0;
    var (gdb, raised) := Gdb.Read(s.gdb, s.gdbLeft[..k]);
    (s.(gdb := gdb, gdbLeft := s.gdbLeft[k..]), raised)
  }

  // select returns only descriptors it was given, those of open reactors; an
  // exception of the first one leaves the second one unread.
  function Turn(s: System, qemu: Option<nat>, gdb: Option<Arrival>): (System, bool) {
    var (s1, raised) := if qemu.Some? && s.qemu.open then QemuTurn(s, qemu.value) else (s, false);
    if raised then (s1, true)
    else if gdb.Some? && s.gdb.open then GdbTurn(s1, gdb.value)
    else (s1, false)
  }

  // How the loop ended, if it did.
  datatype Exit = Running | TimedOut | AllClosed | Stopped

  function React(s: System, rounds: seq<Round>): (System, Exit)
    decreases |rounds|
  {
    if rounds != [] && rounds[0].Deadline? then (s, TimedOut)
    else if !s.qemu.open && !s.gdb.open then (s, AllClosed)
    else if rounds == [] then (s, Running)
    else
      var (s1, raised) := Turn(s, rounds[0].qemu, rounds[0].gdb);
      if raised then (s1, Stopped) else React(s1, rounds[1..])
  }

  // ---------- what every step keeps ----------

  ghost predicate Sound(s: System, base: seq<byte>) {
    && Accounted(s.qemu, base)
    && Gdb.Consistent(s.gdb)
    && (!s.qemu.open ==> s.qemuLeft == [])
  }

  // The whole streams of both peers, read or not.
  function QemuStream(s: System): seq<byte> {
    s.qemu.outbytes + s.qemuLeft
  }

  function GdbStream(s: System): seq<byte> {
    s.gdb.received + s.gdbLeft
  }

  lemma QemuTurnKeeps(s: System, base: seq<byte>, n: nat)
    requires Sound(s, base)
    ensures Sound(QemuTurn(s, n).0, base)
    ensures QemuStream(QemuTurn(s, n).0) == QemuStream(s)
  {
    hide Accounted, Gdb.Consistent, DecodeUtf8, Deliver;
    var k := Length(|s.qemuLeft|, n);
    ReadKeepsAccounted(s.qemu, base, s.qemuLeft[..k]);
    assert s.qemuLeft == s.qemuLeft[..k] + s.qemuLeft[k..];
  }

  lemma GdbTurnKeeps(s: System, base: seq<byte>, a: Arrival)
    requires Sound(s, base)
    ensures Sound(GdbTurn(s, a).0, base)
    ensures GdbStream(GdbTurn(s, a).0) == GdbStream(s)
  {
    hide Accounted, Gdb.Consistent, Framing.Pop, DecodeAscii;
    var k := if a.Bytes? then Length(|s.gdbLeft|, a.n) else 0;
    Gdb.ReadKeepsConsistent(s.gdb, s.gdbLeft[..k]);
    assert s.gdbLeft == s.gdbLeft[..k] + s.gdbLeft[k..];
  }

  lemma TurnKeeps(s: System, base: seq<byte>, qemu: Option<nat>, gdb: Option<Arrival>)
    requires Sound(s, base)
    ensures
      var s1 := Turn(s, qemu, gdb).0;
      && Sound(s1, base)
      && QemuStream(s1) == QemuStream(s)
      && GdbStream(s1) == GdbStream(s)
      && (!s.qemu.open ==> s1.qemu == s.qemu)
      && (!s.gdb.open ==> s1.gdb == s.gdb)
  {
    hide Sound, Output.Read, Gdb.Read;
    var s1 := s;
    if qemu.Some? && s.qemu.open {
      QemuTurnKeeps(s, base, qemu.value);
      s1 := QemuTurn(s, qemu.value).0;
    }
    if gdb.Some? && s.gdb.open {
      GdbTurnKeeps(s1, base, gdb.value);
    }
  }

  // Conservation over whole runs, however they are scheduled and wherever they end:
  // the bytes accumulated and the bytes unread are the peer's stream, every monitor
  // and the packet buffer are accounted for, and a closed reactor is never read.
  lemma {:induction false} ReactConserves(s: System, base: seq<byte>, rounds: seq<Round>)
    requires Sound(s, base)
    ensures
      var s1 := React(s, rounds).0;
      && Sound(s1, base)
      && QemuStream(s1) == QemuStream(s)
      && GdbStream(s1) == GdbStream(s)
      && (!s.qemu.open ==> s1.qemu == s.qemu)
      && (!s.gdb.open ==> s1.gdb == s.gdb)
    decreases |rounds|
  {
    hide Sound, Turn, QemuStream, GdbStream;
    if rounds != [] && rounds[0].Select? && (s.qemu.open || s.gdb.open) {
      TurnKeeps(s, base, rounds[0].qemu, rounds[0].gdb);
      var (s1, raised) := Turn(s, rounds[0].qemu, rounds[0].gdb);
      if !raised {
        ReactConserves(s1, base, rounds[1..]);
      }
    }
  }

  // ---------- termination ----------

  function Work(s: System): nat {
    |s.qemuLeft| + |s.gdbLeft| + (if s.qemu.open then 1 else 0) + (if s.gdb.open then 1 else 0)
  }

  predicate Ready(s: System, r: Round) {
    r.Select? && ((r.qemu.Some? && s.qemu.open) || (r.gdb.Some? && s.gdb.open))
  }

  // Every pass until the loop ends reports some reactor.
  predicate Productive(s: System, rounds: seq<Round>)
    decreases |rounds|
  {
    if rounds == [] || (!s.qemu.open && !s.gdb.open) then true
    else
      Ready(s, rounds[0]) &&
      var (s1, raised) := Turn(s, rounds[0].qemu, rounds[0].gdb);
      raised || Productive(s1, rounds[1..])
  }

  lemma TurnWorks(s: System, r: Round)
    requires Ready(s, r)
    ensures !Turn(s, r.qemu, r.gdb).1 ==> Work(Turn(s, r.qemu, r.gdb).0) < Work(s)
  {
    hide DecodeUtf8, Deliver, Framing.Pop, DecodeAscii;
  }

  // A loop whose selects always report something and that no stop ends closes every
  // reactor after at most as many passes as there are bytes and open reactors.
  lemma {:induction false} ReactTerminates(s: System, rounds: seq<Round>)
    requires Productive(s, rounds) && |rounds| >= Work(s)
    requires forall i :: 0 <= i < |rounds| ==> rounds[i].Select?
    ensures React(s, rounds).1 == AllClosed || React(s, rounds).1 == Stopped
    decreases |rounds|
  {
    hide Turn;
    if s.qemu.open || s.gdb.open {
      TurnWorks(s, rounds[0]);
      var (s1, raised) := Turn(s, rounds[0].qemu, rounds[0].gdb);
      if !raised {
        ReactTerminates(s1, rounds[1..]);
      }
    }
  }

  // When every reactor is closed, QEMU's whole stream has been accumulated.
  lemma AllClosedReadEverything(s: System, base: seq<byte>, rounds: seq<Round>)
    requires Sound(s, base)
    requires React(s, rounds).1 == AllClosed
    ensures
      var s1 := React(s, rounds).0;
      && !s1.qemu.open && !s1.gdb.open
      && s1.qemu.outbytes == QemuStream(s)
      && s1.qemu.output == DecodeUtf8(QemuStream(s))
  {
    ReactConserves(s, base, rounds);
    AllClosedIsClosed(s, rounds);
    var s1 := React(s, rounds).0;
    assert s1.qemu.outbytes + [] == s1.qemu.outbytes;
  }

  lemma {:induction false} AllClosedIsClosed(s: System, rounds: seq<Round>)
    requires React(s, rounds).1 == AllClosed
    ensures !React(s, rounds).0.qemu.open && !React(s, rounds).0.gdb.open
    decreases |rounds|
  {
    hide Turn;
    if s.qemu.open || s.gdb.open {
      AllClosedIsClosed(Turn(s, rounds[0].qemu, rounds[0].gdb).0, rounds[1..]);
    }
  }

  // ---------- every report is followed by a read ----------

  function QemuReports(rounds: seq<Round>): nat {
    if rounds == [] then 0
    else QemuReports(rounds[1..]) + if rounds[0].Select? && rounds[0].qemu.Some? then 1 else 0
  }

  function GdbReports(rounds: seq<Round>): nat {
    if rounds == [] then 0
    else GdbReports(rounds[1..]) + if rounds[0].Select? && rounds[0].gdb.Some? then 1 else 0
  }

  predicate FailsAt(rounds: seq<Round>, i: nat) {
    i < |rounds| && rounds[i].Select? && rounds[i].gdb == Some(Failure)
  }

  // QEMU is read whenever select reports it, whatever happens to the stub: as many
  // reports as there are bytes, and one for the end of file, close it and leave its whole
  // stream accumulated.
  lemma {:induction false} QemuIsDrained(s: System, base: seq<byte>, rounds: seq<Round>)
    requires Sound(s, base)
    requires forall i :: 0 <= i < |rounds| ==> rounds[i].Select?
    requires React(s, rounds).1 != Stopped && QemuReports(rounds) > |s.qemuLeft|
    ensures
      var q := React(s, rounds).0.qemu;
      !q.open && q.outbytes == QemuStream(s)
    decreases |rounds|
  {
    hide Sound, Turn;
    if !s.qemu.open {
      ReactConserves(s, base, rounds);
      ClosedIsRead(s, base);
    } else {
      var qemu, gdb := rounds[0].qemu, rounds[0].gdb;
      TurnKeeps(s, base, qemu, gdb);
      var s1 := Turn(s, qemu, gdb).0;
      TurnReadsQemu(s, qemu, gdb);
      if s1.qemu.open {
        QemuIsDrained(s1, base, rounds[1..]);
      } else {
        ReactConserves(s1, base, rounds[1..]);
        ClosedIsRead(s1, base);
      }
    }
  }

  lemma ClosedIsRead(s: System, base: seq<byte>)
    requires Sound(s, base) && !s.qemu.open
    ensures s.qemu.outbytes == QemuStream(s)
  {
  }

  lemma TurnReadsQemu(s: System, qemu: Option<nat>, gdb: Option<Arrival>)
    requires s.qemu.open
    ensures
      var (s1, raised) := Turn(s, qemu, gdb);
      && |s1.qemuLeft| <= |s.qemuLeft|
      && (qemu.Some? && !raised ==> |s1.qemuLeft| < |s.qemuLeft| || !s1.qemu.open)
  {
    hide DecodeUtf8, Deliver, Gdb.Read;
  }

  // And so is the stub, unless recv fails.
  lemma {:induction false} GdbIsDrained(s: System, base: seq<byte>, rounds: seq<Round>)
    requires Sound(s, base) && s.gdb.open
    requires forall i :: 0 <= i < |rounds| ==> rounds[i].Select? && !FailsAt(rounds, i)
    requires React(s, rounds).1 != Stopped && GdbReports(rounds) > |s.gdbLeft|
    ensures
      var s1 := React(s, rounds).0;
      !s1.gdb.open && s1.gdb.received == GdbStream(s)
    decreases |rounds|
  {
    hide Sound, Turn;
    var qemu, gdb := rounds[0].qemu, rounds[0].gdb;
    TurnKeeps(s, base, qemu, gdb);
    var s1 := Turn(s, qemu, gdb).0;
    assert !FailsAt(rounds, 0);
    TurnReadsGdb(s, qemu, gdb);
    forall i | 0 <= i < |rounds| - 1
      ensures rounds[1..][i].Select? && !FailsAt(rounds[1..], i)
    {
      assert !FailsAt(rounds, i + 1);
    }
    if s1.gdb.open {
      GdbIsDrained(s1, base, rounds[1..]);
    } else {
      ReactConserves(s1, base, rounds[1..]);
      assert s1.gdb.received + [] == s1.gdb.received;
    }
  }

  lemma TurnReadsGdb(s: System, qemu: Option<nat>, gdb: Option<Arrival>)
    requires s.gdb.open
    ensures
      var (s1, raised) := Turn(s, qemu, gdb);
      && |s1.gdbLeft| <= |s.gdbLeft|
      && (gdb.Some? && !raised ==> |s1.gdbLeft| < |s.gdbLeft| || !s1.gdb.open)
      && (!s1.gdb.open ==> gdb == Some(Failure) || s1.gdbLeft == [])
      && (gdb == Some(Failure) && !raised ==> !s1.gdb.open && s1.gdbLeft == s.gdbLeft)
  {
    hide DecodeAscii, Framing.Pop, Output.Read;
  }

  // The stub's socket is closed only at the end of its stream or by a failure.
  lemma {:induction false} GdbStaysOpen(s: System, rounds: seq<Round>)
    requires s.gdb.open
    ensures
      var s1 := React(s, rounds).0;
      s1.gdb.open || s1.gdbLeft == [] || exists i :: FailsAt(rounds, i)
    decreases |rounds|
  {
    hide Turn;
    if rounds != [] && rounds[0].Select? {
      var qemu, gdb := rounds[0].qemu, rounds[0].gdb;
      var (s1, raised) := Turn(s, qemu, gdb);
      TurnReadsGdb(s, qemu, gdb);
      if gdb == Some(Failure) {
        assert FailsAt(rounds, 0);
      } else if !raised && s1.gdb.open {
        GdbStaysOpen(s1, rounds[1..]);
        if i: nat :| FailsAt(rounds[1..], i) {
          assert rounds[1..][i] == rounds[i + 1];
          assert FailsAt(rounds, i + 1);
        }
      } else if !raised {
        ClosedGdbIsLeft(s1, rounds[1..]);
      }
    }
  }

  // And every failure does close it, unless an exception has ended the loop.
  lemma {:induction false} FailureClosesStub(s: System, rounds: seq<Round>, i: nat)
    requires forall j :: 0 <= j < |rounds| ==> rounds[j].Select?
    requires FailsAt(rounds, i) && React(s, rounds).1 != Stopped
    ensures !React(s, rounds).0.gdb.open
    decreases |rounds|
  {
    hide Turn;
    if !s.gdb.open {
      ClosedGdbIsLeft(s, rounds);
    } else {
      var s1 := Turn(s, rounds[0].qemu, rounds[0].gdb).0;
      TurnReadsGdb(s, rounds[0].qemu, rounds[0].gdb);
      if i == 0 {
        ClosedGdbIsLeft(s1, rounds[1..]);
      } else {
        FailureClosesStub(s1, rounds[1..], i - 1);
      }
    }
  }

  lemma {:induction false} ClosedGdbIsLeft(s: System, rounds: seq<Round>)
    requires !s.gdb.open
    ensures React(s, rounds).0.gdbLeft == s.gdbLeft && React(s, rounds).0.gdb == s.gdb
    decreases |rounds|
  {
    hide DecodeUtf8, Deliver;
    if rounds != [] && rounds[0].Select? && s.qemu.open {
      var (s1, raised) := Turn(s, rounds[0].qemu, rounds[0].gdb);
      if !raised {
        ClosedGdbIsLeft(s1, rounds[1..]);
      }
    }
  }

  // QEMU's process has been waited for exactly when a read has found the end of its
  // stream without an exception of a monitor.
  lemma {:induction false} ReactKeepsClosedAtEnd(s: System, rounds: seq<Round>)
    requires ClosedAtEnd(s.qemu)
    ensures ClosedAtEnd(React(s, rounds).0.qemu)
    decreases |rounds|
  {
    hide ClosedAtEnd, Output.Read, Gdb.Read;
    if rounds != [] && rounds[0].Select? && (s.qemu.open || s.gdb.open) {
      var qemu, gdb := rounds[0].qemu, rounds[0].gdb;
      if qemu.Some? {
        ReadKeepsClosedAtEnd(s.qemu, s.qemuLeft[..Length(|s.qemuLeft|, qemu.value)]);
      }
      if !Turn(s, qemu, gdb).1 {
        ReactKeepsClosedAtEnd(Turn(s, qemu, gdb).0, rounds[1..]);
      }
    }
  }

  // ---------- deadlines ----------

  // A loop that is still running goes on with the next select results as if it had
  // started there.
  lemma {:induction false} ReactAppend(s: System, a: seq<Round>, b: seq<Round>)
    requires React(s, a).1 == Running
    ensures React(s, a + b) == React(React(s, a).0, b)
    decreases |a|
  {
    hide Turn;
    if a == [] {
      assert a + b == b;
    } else {
      assert (a + b)[1..] == a[1..] + b;
      ReactAppend(Turn(s, a[0].qemu, a[0].gdb).0, a[1..], b);
    }
  }

  // Once the deadline has passed, a running loop ends there and reads nothing more; so
  // does one that starts then, even with every reactor closed.
  lemma DeadlineEndsLoop(s: System, a: seq<Round>, b: seq<Round>)
    ensures React(s, a).1 == Running ==> React(s, a + ([Deadline] + b)) == (React(s, a).0, TimedOut)
    ensures React(s, [Deadline] + b) == (s, TimedOut)
  {
    if React(s, a).1 != Running {
      return;
    }
    ReactAppend(s, a, [Deadline] + b);
  }

  // Nothing else ends it that way: the state is the one in which the deadline was seen.
  lemma {:induction false} TimedOutAtDeadline(s: System, rounds: seq<Round>) returns (i: nat)
    requires React(s, rounds).1 == TimedOut
    ensures i < |rounds| && rounds[i].Deadline?
    ensures
      var (s1, exit) := React(s, rounds[..i]);
      s1 == React(s, rounds).0 && (exit == Running || exit == AllClosed)
    decreases |rounds|
  {
    hide Turn;
    if rounds[0].Deadline? {
      i := 0;
    } else {
      var j := TimedOutAtDeadline(Turn(s, rounds[0].qemu, rounds[0].gdb).0, rounds[1..]);
      i := j + 1;
      assert rounds[..i][1..] == rounds[1..][..j];
    }
  }

  // ---------- stops ----------

  // The last read of QEMU was ended by monitor k.
  predicate StoppedBy(q: Qemu, k: nat) {
    q.history != [] && q.history[|q.history| - 1].raisedBy == Some(k)
  }

  // The monitor that ended a run was registered when the output was `base`; it stopped
  // on a true line of the output, or on the part of it that it heard, and that matched.
  ghost predicate SawMatchingLine(q: Qemu, base: seq<byte>, k: nat, watch: Watch) {
    && k < |q.monitors| && q.monitors[k].OnLine?
    && q.monitors[k].state.consumed != []
    && TrueLine(base, q.monitors[k]) in Completed(q.outbytes)
    && StopLine(q.monitors[k]) in Completed(AllRead(q.history))
    && watch.matches(DecodeUtf8(StopLine(q.monitors[k])))
  }

  lemma QemuTurnStops(s: System, base: seq<byte>, n: nat, k: nat)
    requires Sound(s, base) && NeverRaised(s.qemu.history)
    requires StoppedBy(QemuTurn(s, n).0.qemu, k)
    ensures QemuTurn(s, n).1
    ensures k < |s.qemu.monitors| && s.qemu.monitors[k].OnLine?
    ensures SawMatchingLine(QemuTurn(s, n).0.qemu, base, k, s.qemu.monitors[k].watch)
  {
    hide DecodeUtf8, Accounted, Deliver, Completed, Tail, Gdb.Consistent;
    var chunk := s.qemuLeft[..Length(|s.qemuLeft|, n)];
    RaiserMatched(s.qemu, chunk, k);
    FirstStopSawTrueLine(s.qemu, base, chunk, k);
  }

  lemma QuietQemuTurn(s: System, n: nat)
    requires NeverRaised(s.qemu.history) && !QemuTurn(s, n).1
    ensures NeverRaised(QemuTurn(s, n).0.qemu.history)
    ensures |QemuTurn(s, n).0.qemu.monitors| == |s.qemu.monitors|
    ensures forall k :: 0 <= k < |s.qemu.monitors| ==>
      SameKind(s.qemu.monitors[k], QemuTurn(s, n).0.qemu.monitors[k])
  {
    hide DecodeUtf8, Deliver;
    ReadKeepsKinds(s.qemu, s.qemuLeft[..Length(|s.qemuLeft|, n)]);
  }

  // In a run of the loop that starts without stops, a stop by monitor k ends it, and
  // the monitor has then seen a true line of the output and what it heard of it matched.
  lemma {:induction false} StopSawMatchingLine(s: System, base: seq<byte>, rounds: seq<Round>, k: nat)
    requires Sound(s, base) && NeverRaised(s.qemu.history)
    ensures StoppedBy(React(s, rounds).0.qemu, k) ==>
      && React(s, rounds).1 == Stopped
      && k < |s.qemu.monitors| && s.qemu.monitors[k].OnLine?
      && SawMatchingLine(React(s, rounds).0.qemu, base, k, s.qemu.monitors[k].watch)
    decreases |rounds|
  {
    hide Sound, QemuTurn, GdbTurn, SawMatchingLine;
    if !StoppedBy(React(s, rounds).0.qemu, k) {
      return;
    }
    var qemu, gdb := rounds[0].qemu, rounds[0].gdb;
    TurnKeeps(s, base, qemu, gdb);
    var s1 := Turn(s, qemu, gdb).0;
    var read := qemu.Some? && s.qemu.open;
    GdbTurnLeavesQemu(if read then QemuTurn(s, qemu.value).0 else s);
    if read && QemuTurn(s, qemu.value).1 {
      QemuTurnStops(s, base, qemu.value, k);
    } else {
      if read {
        QuietQemuTurn(s, qemu.value);
      }
      StopSawMatchingLine(s1, base, rounds[1..], k);
    }
  }

  lemma GdbTurnLeavesQemu(s: System)
    ensures forall a :: GdbTurn(s, a).0.qemu == s.qemu
  {
  }

  predicate StoppedByMonitor(q: Qemu) {
    q.history != [] && q.history[|q.history| - 1].raisedBy.Some?
  }

  lemma TurnStopsIff(s: System, qemu: Option<nat>, gdb: Option<Arrival>)
    requires NeverRaised(s.qemu.history)
    ensures
      var (s1, raised) := Turn(s, qemu, gdb);
      && s.gdb.stops <= s1.gdb.stops <= s.gdb.stops + 1
      && (raised <==> StoppedByMonitor(s1.qemu) || s1.gdb.stops > s.gdb.stops)
      && (StoppedByMonitor(s1.qemu) ==> s1.gdb == s.gdb)
      && (!raised ==> NeverRaised(s1.qemu.history))
  {
    hide DecodeUtf8, Deliver, DecodeAscii, Framing.Pop;
  }

  // The loop is ended by an exception exactly when a monitor raised during the last
  // read of QEMU or one more breakpoint reply was popped, and never by both: a stop by
  // a monitor leaves the stub unread.
  lemma {:induction false} StoppedIff(s: System, rounds: seq<Round>)
    requires NeverRaised(s.qemu.history)
    ensures
      var (s1, exit) := React(s, rounds);
      && s.gdb.stops <= s1.gdb.stops <= s.gdb.stops + 1
      && (exit == Stopped <==> StoppedByMonitor(s1.qemu) || s1.gdb.stops > s.gdb.stops)
      && !(StoppedByMonitor(s1.qemu) && s1.gdb.stops > s.gdb.stops)
    decreases |rounds|
  {
    hide Turn;
    if rounds != [] && rounds[0].Select? && (s.qemu.open || s.gdb.open) {
      TurnStopsIff(s, rounds[0].qemu, rounds[0].gdb);
      var (s1, raised) := Turn(s, rounds[0].qemu, rounds[0].gdb);
      if !raised {
        StoppedIff(s1, rounds[1..]);
      }
    }
  }

  // Some watcher's pattern matches a completed line of the output read so far.
  ghost predicate SomeLineMatches(monitors: seq<Monitor>, heard: seq<byte>) {
    exists k, l :: MatchesLine(monitors, k, heard, l)
  }

  ghost predicate MatchesLine(monitors: seq<Monitor>, k: nat, heard: seq<byte>, l: seq<byte>) {
    && k < |monitors| && monitors[k].OnLine?
    && l in Completed(heard) && monitors[k].watch.matches(DecodeUtf8(l))
  }

  lemma {:induction false} QuietRunStaysUnstopped(s: System, base: seq<byte>, rounds: seq<Round>)
    requires Sound(s, base) && NeverRaised(s.qemu.history) && AllUnstopped(s.qemu)
    ensures
      var s1 := React(s, rounds).0;
      !StoppedByMonitor(s1.qemu) ==>
        && NeverRaised(s1.qemu.history) && AllUnstopped(s1.qemu)
        && |s1.qemu.monitors| == |s.qemu.monitors|
        && forall k :: 0 <= k < |s.qemu.monitors| ==> SameKind(s.qemu.monitors[k], s1.qemu.monitors[k])
    decreases |rounds|
  {
    hide Sound, Turn, AllUnstopped;
    if rounds != [] && rounds[0].Select? && (s.qemu.open || s.gdb.open) {
      var (s1, raised) := Turn(s, rounds[0].qemu, rounds[0].gdb);
      TurnKeeps(s, base, rounds[0].qemu, rounds[0].gdb);
      QuietTurnStaysUnstopped(s, base, rounds[0].qemu, rounds[0].gdb);
      TurnStopsIff(s, rounds[0].qemu, rounds[0].gdb);
      if !raised {
        QuietRunStaysUnstopped(s1, base, rounds[1..]);
      }
    }
  }

  lemma QuietTurnStaysUnstopped(s: System, base: seq<byte>, qemu: Option<nat>, gdb: Option<Arrival>)
    requires Sound(s, base) && NeverRaised(s.qemu.history) && AllUnstopped(s.qemu)
    ensures
      var s1 := Turn(s, qemu, gdb).0;
      !StoppedByMonitor(s1.qemu) ==>
        && NeverRaised(s1.qemu.history) && AllUnstopped(s1.qemu)
        && |s1.qemu.monitors| == |s.qemu.monitors|
        && forall k :: 0 <= k < |s.qemu.monitors| ==> SameKind(s.qemu.monitors[k], s1.qemu.monitors[k])
  {
    hide Sound, AllUnstopped, QemuTurn, GdbTurn;
    if qemu.Some? && s.qemu.open {
      var (s1, raised) := QemuTurn(s, qemu.value);
      GdbTurnLeavesQemu(s1);
      if raised {
        RaisedIsStopped(s, qemu.value);
      } else {
        QuietQemuTurn(s, qemu.value);
        QuietTurnKeepsUnstopped(s, base, qemu.value);
      }
    } else {
      GdbTurnLeavesQemu(s);
    }
  }

  lemma RaisedIsStopped(s: System, n: nat)
    ensures QemuTurn(s, n).1 ==> StoppedByMonitor(QemuTurn(s, n).0.qemu)
  {
    hide DecodeUtf8, Deliver;
  }

  lemma QuietTurnKeepsUnstopped(s: System, base: seq<byte>, n: nat)
    requires Sound(s, base) && AllUnstopped(s.qemu) && !QemuTurn(s, n).1
    ensures AllUnstopped(QemuTurn(s, n).0.qemu)
  {
    hide AllUnstopped, Accounted, Gdb.Consistent, Output.Read;
    QuietReadKeepsUnstopped(s.qemu, base, s.qemuLeft[..Length(|s.qemuLeft|, n)]);
  }

  // With watchers that stop at their first match, a run is stopped by one of them
  // exactly when a completed line of what was read since their registration matches:
  // no stop is spurious and none is missed.
  lemma StoppedByMonitorIff(s: System, base: seq<byte>, rounds: seq<Round>)
    requires Sound(s, base) && NeverRaised(s.qemu.history) && AllUnstopped(s.qemu)
    ensures
      var s1 := React(s, rounds).0;
      StoppedByMonitor(s1.qemu) <==> SomeLineMatches(s.qemu.monitors, AllRead(s1.qemu.history))
  {
    hide React, Sound, AllUnstopped, Completed, DecodeUtf8, AllRead;
    var s1 := React(s, rounds).0;
    if StoppedByMonitor(s1.qemu) {
      var k := s1.qemu.history[|s1.qemu.history| - 1].raisedBy.value;
      StopSawMatchingLine(s, base, rounds, k);
      assert MatchesLine(s.qemu.monitors, k, AllRead(s1.qemu.history), StopLine(s1.qemu.monitors[k]));
    } else {
      QuietRunStaysUnstopped(s, base, rounds);
      ReactConserves(s, base, rounds);
      forall k: nat, l
        ensures !MatchesLine(s.qemu.monitors, k, AllRead(s1.qemu.history), l)
      {
        if k < |s.qemu.monitors| && s.qemu.monitors[k].OnLine? {
          assert SameKind(s.qemu.monitors[k], s1.qemu.monitors[k]);
          SoundIsAccounted(s1, base);
          QuietHistoryHadNoMatch(s1.qemu, base, k);
        }
      }
    }
  }

  lemma SoundIsAccounted(s: System, base: seq<byte>)
    requires Sound(s, base)
    ensures Accounted(s.qemu, base)
  {
  }

  // ---------- from a stop to the assertion ----------

  // Output only grows.
  lemma {:induction false} ReactExtends(s: System, rounds: seq<Round>)
    ensures s.qemu.outbytes <= React(s, rounds).0.qemu.outbytes
    decreases |rounds|
  {
    hide DecodeUtf8, Deliver, Gdb.Read;
    if rounds != [] && rounds[0].Select? && (s.qemu.open || s.gdb.open) {
      var (s1, raised) := Turn(s, rounds[0].qemu, rounds[0].gdb);
      if !raised {
        ReactExtends(s1, rounds[1..]);
      }
    }
  }

  // run_qemu: the main loop, and the shutdown loop after it if the GDB socket is
  // still there to send the kill command.  The monitors stay registered.
  function RunQemu(s: System, main: seq<Round>, shutdown: seq<Round>): System {
    var after := React(s, main).0;
    if after.gdb.open then React(after, shutdown).0 else after
  }

  // The shutdown loop goes on reading: if it ends with every reactor closed, or if QEMU
  // is reported often enough before any exception, QEMU's whole stream is in the output.
  // If the stub is gone before it, nothing more is read.
  lemma ShutdownReadsOn(s: System, base: seq<byte>, main: seq<Round>, shutdown: seq<Round>)
    requires Sound(s, base)
    ensures
      var after := React(s, main).0;
      var final := RunQemu(s, main, shutdown);
      && (after.gdb.open && FinishesQemu(after, shutdown) ==>
        !final.qemu.open && final.qemu.outbytes == QemuStream(s) && final.qemu.output == DecodeUtf8(QemuStream(s)))
      && (!after.gdb.open ==> final == after)
  {
    hide React, Sound, DecodeUtf8;
    var after := React(s, main).0;
    ReactConserves(s, base, main);
    ReactConserves(after, base, shutdown);
    SoundOutput(React(after, shutdown).0, base);
    if React(after, shutdown).1 == AllClosed {
      AllClosedReadEverything(after, base, shutdown);
    } else if FinishesQemu(after, shutdown) {
      QemuIsDrained(after, base, shutdown);
    }
  }

  predicate FinishesQemu(s: System, rounds: seq<Round>) {
    var exit := React(s, rounds).1;
    || exit == AllClosed
    || (&& exit != Stopped && QemuReports(rounds) > |s.qemuLeft|
        && forall i :: 0 <= i < |rounds| ==> rounds[i].Select?)
  }

  // Monitor k watches for the lines that pattern r matches.
  ghost predicate Watches(s: System, k: nat, m: LinesMatch.Matcher, r: string) {
    && k < |s.qemu.monitors| && s.qemu.monitors[k].OnLine?
    && forall t :: s.qemu.monitors[k].watch.matches(t) <==> m(r, t)
  }

  // What r.match finds in an output after monitor k, registered at `base`, has stopped.
  // Pattern r matches what the monitor heard of the line.  The line is among the lines
  // of the output iff it holds no other line break; and if the monitor heard it in full,
  // it then makes r.match succeed.
  ghost predicate StopFound(stopped: seq<Monitor>, base: seq<byte>, k: nat,
                            m: LinesMatch.Matcher, r: string, output: string) {
    && k < |stopped| && stopped[k].OnLine? && stopped[k].state.consumed != []
    && m(r, DecodeUtf8(StopLine(stopped[k])))
    && var line, lines := DecodeUtf8(TrueLine(base, stopped[k])), SplitLines(output);
    && (line in lines <==> OneLine(line))
    && (Tail(base) == [] || |stopped[k].state.consumed| > 1 ==>
         m(r, line) && (OneLine(line) ==> LinesMatch.Satisfied(m, lines, [r], [])))
  }

  // End to end: if a watcher for pattern r ends the main loop, then, whatever else is
  // read before QEMU is gone, the line it stopped on is a line of the final output that
  // r.match finds, provided it holds no line break other than the newline that ended
  // it; without that proviso it is not among the lines r.match looks at.  Only on the
  // first line heard, and only if it was registered in the middle of that line, did the
  // watcher see a part of the line instead.
  lemma StopMeansMatch(s: System, base: seq<byte>, main: seq<Round>, shutdown: seq<Round>,
                       k: nat, m: LinesMatch.Matcher, r: string)
    requires Sound(s, base) && NeverRaised(s.qemu.history)
    ensures StoppedBy(React(s, main).0.qemu, k) && Watches(s, k, m, r) ==>
      StopFound(React(s, main).0.qemu.monitors, base, k, m, r, RunQemu(s, main, shutdown).qemu.output)
  {
    hide DecodeUtf8, React, Sound, Completed, Tail, OneLine, SplitLines;
    if !(StoppedBy(React(s, main).0.qemu, k) && Watches(s, k, m, r)) {
      return;
    }
    StopSawMatchingLine(s, base, main, k);
    ReactConserves(s, base, main);
    var after := React(s, main).0;
    ReactConserves(after, base, shutdown);
    ReactExtends(after, shutdown);
    var final := RunQemu(s, main, shutdown).qemu;
    var stopped := after.qemu.monitors[k];
    var l := TrueLine(base, stopped);
    assert final.output == DecodeUtf8(final.outbytes) by {
      SoundOutput(RunQemu(s, main, shutdown), base);
    }
    assert l in Completed(final.outbytes) by {
      var more := final.outbytes[|after.qemu.outbytes|..];
      assert final.outbytes == after.qemu.outbytes + more;
      CompletedAppend(after.qemu.outbytes, more);
    }
    CompletedLineInText(final.outbytes, l);
    if Tail(base) == [] || |stopped.state.consumed| > 1 {
      assert [] + StopLine(stopped) == StopLine(stopped);
      if OneLine(DecodeUtf8(l)) {
        FoundIsSatisfied(m, r, DecodeUtf8(l), SplitLines(final.output));
      }
    }
  }

  // If QEMU prints nothing but printable ASCII and newlines, there is no other proviso
  // than the line boundary: a watcher for r stops the run only if r.match then succeeds.
  lemma PrintableStopMeansMatch(s: System, main: seq<Round>, shutdown: seq<Round>,
                                k: nat, m: LinesMatch.Matcher, r: string)
    requires Sound(s, s.qemu.outbytes) && NeverRaised(s.qemu.history) && Tail(s.qemu.outbytes) == []
    requires PrintableBytes(QemuStream(s))
    requires StoppedBy(React(s, main).0.qemu, k) && Watches(s, k, m, r)
    ensures LinesMatch.Satisfied(m, SplitLines(RunQemu(s, main, shutdown).qemu.output), [r], [])
  {
    hide DecodeUtf8, React, Sound, Completed, Tail, OneLine, SplitLines, LinesMatch.Satisfied;
    var base := s.qemu.outbytes;
    StopMeansMatch(s, base, main, shutdown, k, m, r);
    StopSawMatchingLine(s, base, main, k);
    ReactConserves(s, base, main);
    var q := React(s, main).0.qemu;
    var l := TrueLine(base, q.monitors[k]);
    assert PrintableBytes(q.outbytes) by {
      assert forall i :: 0 <= i < |q.outbytes| ==> QemuStream(s)[i] == q.outbytes[i];
    }
    PrintableLine(q.outbytes, l);
  }

  lemma SoundOutput(s: System, base: seq<byte>)
    requires Sound(s, base)
    ensures s.qemu.output == DecodeUtf8(s.qemu.outbytes)
  {
  }

  lemma FoundIsSatisfied(m: LinesMatch.Matcher, r: string, line: string, lines: seq<string>)
    requires m(r, line) && line in lines
    ensures LinesMatch.Satisfied(m, lines, [r], [])
  {
    var i :| 0 <= i < |lines| && lines[i] == line;
    assert m(r, lines[i]);
  }

  // The proviso is exactly what is needed when nothing is known about the pattern: a
  // completed line makes r.match succeed for every pattern that matches the line iff
  // the line is free of other line breaks.
  lemma MatchForEveryPatternIff(bytes: seq<byte>, l: seq<byte>)
    requires l in Completed(bytes)
    ensures
      (forall m: LinesMatch.Matcher, r: string :: m(r, DecodeUtf8(l)) ==>
        LinesMatch.Satisfied(m, SplitLines(DecodeUtf8(bytes)), [r], []))
      <==> OneLine(DecodeUtf8(l))
  {
    hide DecodeUtf8, SplitLines, OneLine, Completed;
    var line, lines := DecodeUtf8(l), SplitLines(DecodeUtf8(bytes));
    CompletedLineInText(bytes, l);
    if OneLine(line) {
      forall m: LinesMatch.Matcher, r: string | m(r, line)
        ensures LinesMatch.Satisfied(m, lines, [r], [])
      {
        FoundIsSatisfied(m, r, line, lines);
      }
    } else {
      var exact: LinesMatch.Matcher := (_, t) => t == line;
      assert exact("", line);
      assert !LinesMatch.Found(exact, "", lines);
      assert "" in [""];
      assert !LinesMatch.Satisfied(exact, lines, [""], []);
    }
  }

  // Such a line exists: QEMU prints "a", a carriage return, "b" and a newline.  A
  // watcher for exactly this line stops the run, but r.match with the same pattern
  // looks at "a" and "b" and fails.
  lemma StopWithoutMatch()
    ensures
      var bytes: seq<byte> := [97, 13, 98, 10];
      var l: seq<byte> := [97, 13, 98];
      && Completed(bytes) == [l]
      && exists m: LinesMatch.Matcher, r: string ::
           m(r, DecodeUtf8(l)) && !LinesMatch.Satisfied(m, SplitLines(DecodeUtf8(bytes)), [r], [])
  {
    var bytes: seq<byte> := [97, 13, 98, 10];
    var l: seq<byte> := [97, 13, 98];
    assert bytes == l + [NEWLINE];
    SingleCompleted(l);
    CarriageReturnIsKept();
    MatchForEveryPatternIff(bytes, l);
  }

  // And so does a watcher registered in the middle of a line: QEMU has printed "a" when
  // it is set up and prints "b" and a newline then.  It stops on "b", but r.match looks
  // at "ab".
  lemma MidLineStopWithoutMatch()
    ensures
      var base: seq<byte> := [97];
      var heard: seq<byte> := [98, 10];
      && Completed(heard) == [[98]]
      && exists m: LinesMatch.Matcher, r: string ::
           m(r, DecodeUtf8([98])) && !LinesMatch.Satisfied(m, SplitLines(DecodeUtf8(base + heard)), [r], [])
  {
    hide DecodeUtf8, SplitLines, Completed;
    var b: seq<byte> := [98];
    assert [98, 10] == b + [NEWLINE];
    SingleCompleted(b);
    MidLineTexts();
    assert [97] + [98, 10] == [97, 98, 10];
    var exact: LinesMatch.Matcher := (_, t) => t == "b";
    assert exact("", DecodeUtf8(b));
    assert !LinesMatch.Found(exact, "", ["ab"]);
    assert "" in [""];
    assert !LinesMatch.Satisfied(exact, ["ab"], [""], []);
  }

  lemma MidLineTexts()
    ensures DecodeUtf8([98]) == "b"
    ensures SplitLines(DecodeUtf8([97, 98, 10])) == ["ab"]
  {
    hide SplitLines;
    var ab: seq<byte> := [97, 98];
    assert ab[1..] == [98];
    DecodeUtf8Newline(ab, []);
    assert ab + [NEWLINE] + [] == [97, 98, 10];
    assert DecodeUtf8(ab) == "ab";
    NewlineBreaks();
    SplitLinesEquations("ab", '\n', "");
    SplitLinesEquations("", '\n', "");
    assert "ab" + "\n" + "" == "ab" + ['\n'] + "";
  }

  lemma CarriageReturnIsKept()
    ensures !OneLine(DecodeUtf8([97, 13, 98]))
  {
    var l: seq<byte> := [97, 13, 98];
    assert l[1..] == [13, 98] && l[1..][1..] == [98];
    assert DecodeUtf8(l)[1] == '\r';
    assert '\r' in DecodeUtf8(l);
    CarriageReturnBreaks();
  }
}
