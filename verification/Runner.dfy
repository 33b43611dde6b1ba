// The objects of a QEMU run: output monitors, the QEMU controller and the runner's
// reactor loop.  Each method is tied to the state machine of module Reactor.
module Runner {
  import opened Basics
  import opened Commands
  import opened Text
  import opened Monitors
  import opened Output
  import opened Reactor
  import Framing
  import Gdb

  // The file of a `save` monitor.
  class LogFile {
    var written: seq<byte>

    constructor ()
      ensures written == []
    {
      written := [];
    }

    method Write(data: seq<byte>)
      modifies this
      ensures written == old(written) + data
    {
      written := written + data;
    }
  }

  // The closure that call_on_line registers.
  class LineMonitor {
    const watch: Watch
    var buf: seq<byte>
    var calls: seq<string>              // what the callback was called with
    ghost var consumed: seq<seq<byte>>

    constructor (watch: Watch)
      ensures this.watch == watch && State() == NOTHING_HEARD
    {
      this.watch := watch;
      buf, calls, consumed := [], [], [];
    }

    ghost function State(): LineState
      reads this
    {
      LineState(buf, consumed, calls)
    }

    // The flag says that the callback raised TerminateTest.
    method HandleOutput(output: seq<byte>) returns (raised: bool)
      modifies this
      ensures (State(), raised) == Monitors.HandleOutput(watch, old(State()), output)
    {
      buf := buf + output;
      ghost var start := State();
      while NEWLINE in buf
        invariant Scan(watch, State()) == Scan(watch, start)
        decreases |buf|
      {
        var k := Find(buf, NEWLINE, 0);
        var line := buf[..k];
        consumed := consumed + [line];
        buf := buf[k + 1..];
        var text := DecodeUtf8(line);
        if watch.matches(text) {
          var before := calls;
          calls := calls + [text];
          if watch.raises(before, text) {
            return true;
          }
        }
      }
      return false;
    }
  }

  datatype Callback = WriteTo(log: LogFile) | Watching(monitor: LineMonitor) {
    ghost function Object(): object {
      match this
      case WriteTo(log) => log
      case Watching(monitor) => monitor
    }

    ghost function View(): Monitor
      reads Object()
    {
      match this
      case WriteTo(log) => Save(log.written)
      case Watching(monitor) => OnLine(monitor.watch, monitor.State())
    }

    method Call(chunk: seq<byte>) returns (raised: bool)
      modifies Object()
      ensures (View(), raised) == Notify(old(View()), chunk)
    {
      match this
      case WriteTo(log) =>
        log.Write(chunk);
        raised := false;
      case Watching(monitor) =>
        raised := monitor.HandleOutput(chunk);
    }
  }

  class QemuController {
    var proc: bool                 // whether the process has not been waited for
    var outbytes: seq<byte>
    var output: string
    var onOutput: seq<Callback>
    ghost var history: seq<Reading>

    ghost function Footprint(): set<object>
      reads this
    {
      set i | 0 <= i < |onOutput| :: onOutput[i].Object()
    }

    // Each registration has its own closure or file.
    ghost predicate Valid()
      reads this
    {
      && this !in Footprint()
      && forall i, j :: 0 <= i < j < |onOutput| ==> onOutput[i].Object() != onOutput[j].Object()
    }

    ghost function Views(): seq<Monitor>
      reads this, Footprint()
    {
      seq(|onOutput|, i requires 0 <= i < |onOutput| reads this, Footprint() => onOutput[i].View())
    }

    ghost function View(): Qemu
      reads this, Footprint()
    {
      Qemu(proc, outbytes, output, Views(), history)
    }

    constructor ()
      ensures Valid() && View() == Qemu(true, [], "", [], []) && onOutput == []
    {
      proc, outbytes, output, onOutput, history := true, [], "", [], [];
    }

    method HandleRead(chunk: seq<byte>) returns (raised: bool)
      requires Valid() && proc
      modifies this`proc, this`outbytes, this`output, this`history, Footprint()
      ensures Valid() && onOutput == old(onOutput)
      ensures (View(), raised) == Output.Read(old(View()), chunk)
      ensures proc <==> raised || chunk != []
    {
      hide DecodeUtf8, Deliver, Notify;
      outbytes := outbytes + chunk;
      output := DecodeUtf8(outbytes);
      assert Views() == old(Views());
      var raisedBy := CallMonitors(chunk);
      ghost var after := Views();
      history := history + [Reading(chunk, raisedBy)];
      raised := raisedBy.Some?;
      if !raised && chunk == [] {
        proc := false;
      }
      assert Views() == after;
    }

    // The callback loop of handle_read.
    method CallMonitors(chunk: seq<byte>) returns (raisedBy: Option<nat>)
      requires Valid()
      modifies Footprint()
      ensures (Views(), raisedBy) == Deliver(old(Views()), 0, chunk)
    {
      hide Notify;
      ghost var start := Views();
      var i := 0;
      while i < |onOutput|
        invariant 0 <= i <= |onOutput|
        invariant Deliver(Views(), i, chunk) == Deliver(start, 0, chunk)
      {
        ghost var before := Views();
        var raised := onOutput[i].Call(chunk);
        assert Views() == before[i := onOutput[i].View()];
        if raised {
          return Some(i);
        }
        i := i + 1;
      }
      return None;
    }

    // Forgetting the callbacks of the start-up phase.
    method ClearMonitors()
      requires Valid()
      modifies this`onOutput, this`history
      ensures Valid() && onOutput == []
      ensures View() == Qemu(old(proc), old(outbytes), old(output), [], [])
    {
      onOutput, history := [], [];
    }

    // Registering a monitor's callback, as setting up a monitor does.
    method Register(callback: Callback)
      modifies this`onOutput
      ensures onOutput == old(onOutput) + [callback]
      ensures Valid() <==> old(Valid()) && callback.Object() !in old(Footprint())
      ensures View() == old(View()).(monitors := old(Views()) + [callback.View()])
      ensures Footprint() == old(Footprint()) + {callback.Object()}
    {
      ghost var before := Views();
      onOutput := onOutput + [callback];
      assert onOutput[|before|] == callback;
      assert forall i :: 0 <= i < |before| ==> onOutput[i] == old(onOutput)[i];
      assert forall i :: 0 <= i < |onOutput| ==>
        onOutput[i] == callback || onOutput[i].Object() in old(Footprint());
      assert Views() == before + [callback.View()];
      match callback
      case WriteTo(log) => assert callback.Object() != this;
      case Watching(monitor) => assert callback.Object() != this;
    }
  }

  // A descriptor's unread bytes; Read is os.read or recv of at most READ_SIZE bytes.
  class Pipe {
    var left: seq<byte>

    constructor (stream: seq<byte>)
      ensures left == stream
    {
      left := stream;
    }

    method Read(n: nat) returns (data: seq<byte>)
      modifies this
      ensures data == old(left)[..Length(|old(left)|, n)]
      ensures left == old(left)[Length(|old(left)|, n)..]
    {
      var k := Length(|left|, n);
      data := left[..k];
      left := left[k..];
    }
  }

  // The views of these callbacks when a log file has been emptied.
  ghost function Emptied(callbacks: seq<Callback>, views: seq<Monitor>, log: LogFile): (r: seq<Monitor>)
    requires |views| == |callbacks|
    ensures |r| == |views|
  {
    seq(|views|, i requires 0 <= i < |views| =>
      if callbacks[i] == WriteTo(log) then Monitor.Save([]) else views[i])
  }

  // One run of QEMU under a debugger.
  class Runner {
    const qemu: QemuController
    const gdb: Gdb.GdbClient
    const qemuPipe: Pipe
    const gdbPipe: Pipe

    constructor (qemu: QemuController, gdb: Gdb.GdbClient, qemuPipe: Pipe, gdbPipe: Pipe)
      requires qemu.Valid() && gdb.Valid() && qemuPipe != gdbPipe
      requires {qemu as object, gdb, qemuPipe, gdbPipe} !! qemu.Footprint()
      ensures Valid() && this !in qemu.Footprint()
      ensures this.qemu == qemu && this.gdb == gdb
      ensures this.qemuPipe == qemuPipe && this.gdbPipe == gdbPipe
    {
      this.qemu, this.gdb, this.qemuPipe, this.gdbPipe := qemu, gdb, qemuPipe, gdbPipe;
    }

    ghost predicate Valid()
      reads this, qemu, gdb
    {
      && qemu.Valid() && gdb.Valid()
      && qemuPipe != gdbPipe
      && {qemu as object, gdb, qemuPipe, gdbPipe} !! qemu.Footprint()
    }

    ghost function View(): System
      reads this, qemu, gdb, qemuPipe, gdbPipe, qemu.Footprint()
    {
      System(qemu.View(), gdb.View(), qemuPipe.left, gdbPipe.left)
    }

    // The monitor save(path): the file is emptied and then collects the output.  If it
    // was registered before, the earlier callback writes to the emptied file too.
    method Save(log: LogFile)
      modifies qemu`onOutput, log
      ensures log.written == [] && qemu.onOutput == old(qemu.onOutput) + [WriteTo(log)]
      ensures Valid() <==> old(Valid()) && (log as object) !in old(qemu.Footprint())
      ensures qemu.Footprint() == old(qemu.Footprint()) + {log}
      ensures View() == old(View()).(
        qemu := old(View()).qemu.(monitors := Emptied(old(qemu.onOutput), old(qemu.Views()), log) + [Monitor.Save([])]))
      ensures (log as object) !in old(qemu.Footprint()) ==>
        Emptied(old(qemu.onOutput), old(qemu.Views()), log) == old(qemu.Views())
    {
      ghost var emptied := Emptied(qemu.onOutput, qemu.Views(), log);
      log.written := [];
      assert WriteTo(log).Object() == log;
      qemu.Register(WriteTo(log));
      assert qemu.Views() == emptied + [Monitor.Save([])];
    }

    // The monitors call_on_line and stop_on_line.
    method CallOnLine(watch: Watch)
      requires Valid()
      modifies qemu`onOutput
      ensures Valid()
      ensures View() == old(View()).(
        qemu := old(View()).qemu.(monitors := old(qemu.Views()) + [OnLine(watch, NOTHING_HEARD)]))
      ensures fresh(qemu.Footprint() - old(qemu.Footprint()))
      ensures |qemu.onOutput| == |old(qemu.onOutput)| + 1 && old(qemu.onOutput) <= qemu.onOutput
    {
      hide Gdb.Consistent, Gdb.GdbClient.View, NOTHING_HEARD;
      var monitor := new LineMonitor(watch);
      assert qemu.View() == old(qemu.View()) by {
        assert qemu.Views() == old(qemu.Views());
      }
      assert Watching(monitor).Object() == monitor;
      qemu.Register(Watching(monitor));
    }

    method ReadQemu(n: nat) returns (raised: bool)
      requires Valid() && qemu.proc
      modifies qemu, qemuPipe, qemu.Footprint()
      ensures Valid() && qemu.onOutput == old(qemu.onOutput) && gdb.sent == old(gdb.sent)
      ensures (View(), raised) == QemuTurn(old(View()), n)
    {
      hide Output.Read, DecodeUtf8;
      var chunk := qemuPipe.Read(n);
      assert qemu.View() == old(qemu.View()) by {
        assert qemu.Views() == old(qemu.Views());
      }
      raised := qemu.HandleRead(chunk);
    }

    method ReadGdb(arrival: Arrival) returns (raised: bool)
      requires Valid() && gdb.open
      modifies gdb, gdbPipe
      ensures Valid() && qemu.onOutput == old(qemu.onOutput) && gdb.sent == old(gdb.sent)
      ensures (View(), raised) == GdbTurn(old(View()), arrival)
    {
      hide Gdb.Read, Gdb.Consistent, Framing.Packets, Framing.Residue, DecodeAscii, DecodeUtf8;
      var data := [];
      if arrival.Bytes? {
        data := gdbPipe.Read(arrival.n);
      }
      assert gdb.View() == old(gdb.View());
      raised := gdb.HandleRead(data);
      assert qemu.View() == old(qemu.View()) by {
        assert qemu.Views() == old(qemu.Views());
      }
    }

    // The reactor loop over a script of select results; Running means that the script
    // has come to its end.
    method React(rounds: seq<Round>) returns (exit: Exit)
      requires Valid()
      modifies qemu, gdb, qemuPipe, gdbPipe, qemu.Footprint()
      ensures Valid() && qemu.onOutput == old(qemu.onOutput) && gdb.sent == old(gdb.sent)
      ensures (View(), exit) == Reactor.React(old(View()), rounds)
    {
      hide QemuTurn, GdbTurn;
      ghost var start := View();
      var i := 0;
      while true
        invariant Valid() && qemu.onOutput == old(qemu.onOutput) && gdb.sent == old(gdb.sent)
        invariant 0 <= i <= |rounds|
        invariant Reactor.React(View(), rounds[i..]) == Reactor.React(start, rounds)
        decreases |rounds| - i
      {
        if i < |rounds| && rounds[i].Deadline? {
          return TimedOut;
        }
        var rset := (qemu.proc, gdb.open);
        if rset == (false, false) {
          return AllClosed;
        }
        if i == |rounds| {
          return Running;
        }
        var ready := rounds[i];
        ghost var before := View();
        if ready.qemu.Some? && rset.0 {
          var raised := ReadQemu(ready.qemu.value);
          if raised {
            return Stopped;
          }
        }
        if ready.gdb.Some? && rset.1 {
          var raised := ReadGdb(ready.gdb.value);
          if raised {
            return Stopped;
          }
        }
        assert rounds[i..][1..] == rounds[i + 1..];
        i := i + 1;
      }
    }

    // Sending commands changes nothing that the loop reads.
    method Continue()
      requires Valid() && gdb.open
      modifies gdb`sent
      ensures Valid() && View() == old(View()) && qemu.onOutput == old(qemu.onOutput)
      ensures gdb.sent == old(gdb.sent) + Gdb.CONT
      ensures old(gdb.Settled()) ==> gdb.Settled() && gdb.Commands() == old(gdb.Commands()) + ["c"]
    {
      hide Gdb.Consistent, Framing.Packets, Framing.Residue, DecodeAscii, DecodeUtf8, EncodeAscii, Packet, Free;
      gdb.Cont();
      assert gdb.View() == old(gdb.View());
      assert qemu.Views() == old(qemu.Views());
    }

    // The monitor stop_breakpoint.
    method SetBreakpoint(addr: int)
      requires gdb.open
      modifies gdb`sent
      ensures View() == old(View()) && qemu.onOutput == old(qemu.onOutput)
      ensures Valid() == old(Valid()) && qemu.Footprint() == old(qemu.Footprint())
      ensures old(gdb.Settled()) ==>
        gdb.Settled() && gdb.Commands() == old(gdb.Commands()) + [Gdb.BreakpointCmd(addr)]
    {
      hide Gdb.Consistent, Framing.Packets, Framing.Residue, DecodeAscii, DecodeUtf8, EncodeAscii, Packet, Free,
        Gdb.BreakpointCmd;
      gdb.Breakpoint(addr);
      assert gdb.View() == old(gdb.View());
      assert qemu.Views() == old(qemu.Views());
    }

    method KillQemu()
      requires Valid() && gdb.open
      modifies gdb`sent
      ensures Valid() && View() == old(View()) && qemu.onOutput == old(qemu.onOutput)
      ensures gdb.sent == old(gdb.sent) + Gdb.KILL
      ensures old(gdb.Settled()) ==> gdb.Settled() && gdb.Commands() == old(gdb.Commands()) + ["k"]
    {
      hide Gdb.Consistent, Framing.Packets, Framing.Residue, DecodeAscii, DecodeUtf8, EncodeAscii, Packet, Free;
      gdb.Kill();
      assert gdb.View() == old(gdb.View());
      assert qemu.Views() == old(qemu.Views());
    }

    // run_qemu from the continue command on: the main loop, the kill command and the
    // shutdown loop.  If the stub is gone by then, sending the kill command raises.
    method RunQemu(main: seq<Round>, shutdown: seq<Round>) returns (shutdownFailed: bool)
      requires Valid() && gdb.open
      modifies qemu, gdb, qemuPipe, gdbPipe, qemu.Footprint()
      ensures Valid() && qemu.onOutput == old(qemu.onOutput)
      ensures View() == Reactor.RunQemu(old(View()), main, shutdown)
      ensures shutdownFailed <==> !Reactor.React(old(View()), main).0.gdb.open
      ensures gdb.sent == old(gdb.sent) + Gdb.CONT + if shutdownFailed then [] else Gdb.KILL
      ensures
        var after := Reactor.React(old(View()), main).0;
        forall base :: Sound(old(View()), base) && !shutdownFailed && FinishesQemu(after, shutdown) ==>
          !qemu.proc && qemu.outbytes == old(qemu.outbytes) + old(qemuPipe.left)
      ensures old(gdb.Settled()) ==>
        gdb.Commands() == old(gdb.Commands()) + if shutdownFailed then ["c"] else ["c", "k"]
    {
      hide Reactor.React, Gdb.Consistent, Framing.Packets, Framing.Residue, DecodeAscii, Accepted, Sound,
        FinishesQemu, DecodeUtf8;
      forall base | Sound(View(), base) {
        ShutdownReadsOn(View(), base, main, shutdown);
      }
      Continue();
      var exit := React(main);
      if !gdb.open {
        return true;
      }
      KillQemu();
      exit := React(shutdown);
      return false;
    }
  }
}
