// The relay program as an object that reuses one buffer, and two of them scheduled
// over the same pipes.  Each step is tied to the steps of module Relay.
module RelayProcess {
  import opened Basics
  import opened Relay

  // The named pipes.
  class Kernel {
    var fifos: Fifos

    constructor (fifos: Fifos)
      ensures this.fifos == fifos
    {
      this.fifos := fifos;
    }
  }

  class RelayLoop {
    const inPipe: Inode
    const outPipe: Inode
    const buffer: array<byte>
    var bytesRead: nat
    var full: bool               // between the read and the write of an event
    var events: seq<Source>      // those not handled yet
    var stdin: seq<byte>
    var stdout: seq<byte>

    ghost predicate Valid()
      reads this
    {
      buffer.Length == BUFFER_SIZE && bytesRead <= BUFFER_SIZE
    }

    ghost function View(): Process
      requires Valid()
      reads this, buffer
    {
      Process(inPipe, outPipe, stdin, stdout, events, if full then Some(buffer[..bytesRead]) else None)
    }

    constructor (program: Program, paths: Paths, argv1: string, argv2: string, input: seq<byte>)
      ensures Valid() && fresh(buffer)
      ensures View() == Launch(program, paths, argv1, argv2, input)
      ensures PlaysRole(program, View(), paths, argv1, argv2)
    {
      inPipe, outPipe := paths(InName(program, argv1, argv2)), paths(OutName(program, argv1, argv2));
      buffer := new byte[BUFFER_SIZE];
      bytesRead, full, events, stdin, stdout := 0, false, [], input, [];
    }

    // read(fd, buffer, BUFFER_SIZE) when `data` is what the descriptor delivers.
    method Fill(data: seq<byte>)
      requires Valid() && |data| <= BUFFER_SIZE
      modifies this`bytesRead, this`full, buffer
      ensures Valid() && full && buffer[..bytesRead] == data
    {
      for i := 0 to |data|
        invariant buffer[..i] == data[..i]
      {
        buffer[i] := data[i];
      }
      bytesRead := |data|;
      full := true;
    }

    method Step(kernel: Kernel, act: Act)
      requires Valid() && Open(View(), kernel.fifos)
      modifies this, kernel, buffer
      ensures Valid()
      ensures (View(), kernel.fifos) == Relay.Step(old(View()), old(kernel.fifos), act)
    {
      match act
      case Wait(ready) =>
        if events == [] && !full && Reportable(ready, kernel.fifos[inPipe]) {
          events := ready;
        }
      case Read(n) =>
        if events != [] && !full {
          if events[0] == Stdin {
            var k := Count(|stdin|, n);
            Fill(stdin[..k]);
            stdin := stdin[k..];
          } else {
            var pipe := kernel.fifos[inPipe];
            var k := Count(|pipe|, n);
            if k > 0 {
              Fill(pipe[..k]);
              kernel.fifos := kernel.fifos[inPipe := pipe[k..]];
            }
          }
        }
      case Write =>
        if events != [] && full {
          if events[0] == Stdin {
            kernel.fifos := kernel.fifos[outPipe := kernel.fifos[outPipe] + buffer[..bytesRead]];
          } else {
            stdout := stdout + buffer[..bytesRead];
          }
          events, full := events[1..], false;
        }
    }
  }

  // Both processes and a scheduler.
  class Link {
    const kernel: Kernel
    const left: RelayLoop
    const right: RelayLoop

    ghost predicate Valid()
      reads this, left, right
    {
      left.Valid() && right.Valid() && left != right && left.buffer != right.buffer
    }

    ghost function View(): World
      requires Valid()
      reads this, kernel, left, right, left.buffer, right.buffer
    {
      World(kernel.fifos, left.View(), right.View())
    }

    constructor (x: Program, y: Program, paths: Paths, argv1: string, argv2: string,
                 leftIn: seq<byte>, rightIn: seq<byte>)
      ensures Valid() && fresh({kernel, left, right, left.buffer, right.buffer})
      ensures View() == Together(x, y, paths, argv1, argv2, leftIn, rightIn)
    {
      var l := new RelayLoop(x, paths, argv1, argv2, leftIn);
      var r := new RelayLoop(y, paths, argv1, argv2, rightIn);
      kernel := new Kernel(map[paths(argv1) := [], paths(argv2) := []]);
      left, right := l, r;
    }

    method Schedule(actions: seq<Action>)
      requires Valid() && AllOpen(View())
      modifies kernel, left, right, left.buffer, right.buffer
      ensures Valid() && View() == Run(old(View()), actions)
    {
      ghost var start := View();
      for i := 0 to |actions|
        invariant Valid() && AllOpen(View())
        invariant Run(View(), actions[i..]) == Run(start, actions)
      {
        assert actions[i..][1..] == actions[i + 1..];
        ghost var before := View();
        if actions[i].left {
          left.Step(kernel, actions[i].act);
          assert right.View() == before.right;
        } else {
          right.Step(kernel, actions[i].act);
          assert left.View() == before.left;
        }
        assert View() == Next(before, actions[i]);
      }
    }
  }
}
