// Two relay processes joined by named pipes, as interleaved steps.
module Relay {
  import opened Basics

  const BUFFER_SIZE: nat := 1024

  // A pipe's identity, whatever path leads to it.
  type Inode = nat

  type Fifos = map<Inode, seq<byte>>

  // The descriptors a process watches.
  datatype Source = Stdin | Pipe

  // A process: its pipes, its input not yet read, its output, the events of the last
  // epoll_wait still to be handled, and the data read for the first of them, if it has
  // been read and not yet written.
  datatype Process = Process(inPipe: Inode, outPipe: Inode, stdin: seq<byte>, stdout: seq<byte>,
                             events: seq<Source>, held: Option<seq<byte>>)

  // epoll_wait returns, a read returns up to n bytes, or a write returns.
  datatype Act = Wait(ready: seq<Source>) | Read(n: nat) | Write

  // ---------- the two programs ----------

  datatype Program = Mal | Lub

  // Mal opens argv[1] for input and argv[2] for output; lub does the opposite.
  function InName(p: Program, argv1: string, argv2: string): string {
    if p.Mal? then argv1 else argv2
  }

  function OutName(p: Program, argv1: string, argv2: string): string {
    if p.Mal? then argv2 else argv1
  }

  // The pipe that each path leads to.
  type Paths = string -> Inode

  function Launch(p: Program, paths: Paths, argv1: string, argv2: string, input: seq<byte>): Process {
    Process(paths(InName(p, argv1, argv2)), paths(OutName(p, argv1, argv2)), input, [], [], None)
  }

  // ---------- steps ----------

  predicate Open(p: Process, fifos: Fifos) {
    p.inPipe in fifos && p.outPipe in fifos
  }

  // What epoll_wait may report: each descriptor at most once, the pipe only if it
  // holds data.  Standard input is also ready at end of file.
  predicate Reportable(ready: seq<Source>, pipe: seq<byte>) {
    |ready| <= 2 && (|ready| == 2 ==> ready[0] != ready[1]) && (Pipe in ready ==> pipe != [])
  }

  // So it reports nothing, one of the two, or both in either order.
  lemma ReportableIff(ready: seq<Source>, pipe: seq<byte>)
    ensures Reportable(ready, pipe) <==>
      || ready == [] || ready == [Stdin]
      || (pipe != [] && (ready == [Pipe] || ready == [Stdin, Pipe] || ready == [Pipe, Stdin]))
  {
    assert |ready| == 1 ==> ready == [ready[0]] && ready[0] in ready;
    assert |ready| == 2 ==> ready == [ready[0], ready[1]] && ready[0] in ready && ready[1] in ready;
    assert |ready| >= 1 ==> ready[0].Stdin? || ready[0].Pipe?;
    assert |ready| >= 2 ==> ready[1].Stdin? || ready[1].Pipe?;
  }

  function Count(available: nat, n: nat): (k: nat)
    ensures k <= available && k <= 1024
    ensures k == 0 <==> available == 0
    ensures 1 <= n <= 1024 && n <= available ==> k == n
  {
    var wanted := if n == 0 then 1 else if n > BUFFER_SIZE then BUFFER_SIZE else n;
    if wanted < available then wanted else available
  }

  // One step of a process.  An act that is not its next one, and a read that would
  // block, change nothing.
  function Step(p: Process, fifos: Fifos, act: Act): (Process, Fifos)
    requires Open(p, fifos)
  {
    match act
    case Wait(ready) =>
      if p.events == [] && p.held.None? && Reportable(ready, fifos[p.inPipe])
      then (p.(events := ready), fifos) else (p, fifos)
    case Read(n) =>
      if p.events == [] || p.held.Some? then (p, fifos)
      else if p.events[0].Stdin? then
        var k := Count(|p.stdin|, n);
        (p.(stdin := p.stdin[k..], held := Some(p.stdin[..k])), fifos)
      else
        var pipe := fifos[p.inPipe];
        var k := Count(|pipe|, n);
        if k == 0 then (p, fifos)
        else (p.(held := Some(pipe[..k])), fifos[p.inPipe := pipe[k..]])
    case Write =>
      if p.events == [] || p.held.None? then (p, fifos)
      else
        var done := p.(events := p.events[1..], held := None);
        if p.events[0].Stdin? then (done, fifos[p.outPipe := fifos[p.outPipe] + p.held.value])
        else (done.(stdout := p.stdout + p.held.value), fifos)
  }

  datatype World = World(fifos: Fifos, left: Process, right: Process)

  datatype Action = Action(left: bool, act: Act)

  predicate AllOpen(w: World) {
    Open(w.left, w.fifos) && Open(w.right, w.fifos)
  }

  function Next(w: World, a: Action): (w': World)
    requires AllOpen(w)
    ensures AllOpen(w')
    ensures w'.left.inPipe == w.left.inPipe && w'.left.outPipe == w.left.outPipe
    ensures w'.right.inPipe == w.right.inPipe && w'.right.outPipe == w.right.outPipe
  {
    if a.left then
      var (p, fifos) := Step(w.left, w.fifos, a.act);
      World(fifos, p, w.right)
    else
      var (p, fifos) := Step(w.right, w.fifos, a.act);
      World(fifos, w.left, p)
  }

  function Run(w: World, actions: seq<Action>): (w': World)
    requires AllOpen(w)
    ensures AllOpen(w')
    ensures w'.left.inPipe == w.left.inPipe && w'.left.outPipe == w.left.outPipe
    ensures w'.right.inPipe == w.right.inPipe && w'.right.outPipe == w.right.outPipe
    decreases |actions|
  {
    if actions == [] then w else Run(Next(w, actions[0]), actions[1..])
  }

  // ---------- conservation ----------

  function HeldFrom(p: Process, source: Source): seq<byte> {
    if p.held.Some? && p.events != [] && p.events[0] == source then p.held.value else []
  }

  // Everything on its way from one process to the other, oldest byte first: shown,
  // read from the pipe, in the pipe, read from standard input, and unread.
  function Flow(from: Process, into: Process, fifos: Fifos): seq<byte>
    requires from.outPipe in fifos
  {
    into.stdout + HeldFrom(into, Pipe) + fifos[from.outPipe] + HeldFrom(from, Stdin) + from.stdin
  }

  // Each process reads the pipe that the other writes.
  predicate Crossed(w: World) {
    w.left.outPipe == w.right.inPipe && w.right.outPipe == w.left.inPipe && w.left.inPipe != w.left.outPipe
  }

  // A step of the sender, or of the receiver, moves bytes along and changes neither
  // their order nor their number.
  lemma SenderStepKeepsFlow(from: Process, into: Process, fifos: Fifos, act: Act)
    requires Open(from, fifos) && from.outPipe == into.inPipe && from.inPipe != from.outPipe
    ensures
      var (from', fifos') := Step(from, fifos, act);
      from'.outPipe == from.outPipe && from'.outPipe in fifos' &&
      Flow(from', into, fifos') == Flow(from, into, fifos)
  {
  }

  lemma ReceiverStepKeepsFlow(from: Process, into: Process, fifos: Fifos, act: Act)
    requires Open(into, fifos) && from.outPipe == into.inPipe && into.inPipe != into.outPipe
    ensures
      var (into', fifos') := Step(into, fifos, act);
      from.outPipe in fifos' && Flow(from, into', fifos') == Flow(from, into, fifos)
  {
  }

  lemma {:induction false} RunKeepsFlow(w: World, actions: seq<Action>)
    requires AllOpen(w) && Crossed(w)
    ensures
      var w' := Run(w, actions);
      && AllOpen(w') && Crossed(w')
      && Flow(w'.left, w'.right, w'.fifos) == Flow(w.left, w.right, w.fifos)
      && Flow(w'.right, w'.left, w'.fifos) == Flow(w.right, w.left, w.fifos)
    decreases |actions|
  {
    hide Flow, Step;
    if actions != [] {
      var act := actions[0].act;
      if actions[0].left {
        SenderStepKeepsFlow(w.left, w.right, w.fifos, act);
        ReceiverStepKeepsFlow(w.right, w.left, w.fifos, act);
      } else {
        SenderStepKeepsFlow(w.right, w.left, w.fifos, act);
        ReceiverStepKeepsFlow(w.left, w.right, w.fifos, act);
      }
      RunKeepsFlow(Next(w, actions[0]), actions[1..]);
    }
  }

  // ---------- both programs with the same two arguments ----------

  function Together(x: Program, y: Program, paths: Paths, argv1: string, argv2: string,
                    leftIn: seq<byte>, rightIn: seq<byte>): (w: World)
    ensures AllOpen(w)
  {
    World(map[paths(argv1) := [], paths(argv2) := []],
          Launch(x, paths, argv1, argv2, leftIn), Launch(y, paths, argv1, argv2, rightIn))
  }

  // Mal reads the pipe of its first argument and writes that of its second; lub does
  // the opposite.
  predicate PlaysRole(p: Program, q: Process, paths: Paths, argv1: string, argv2: string) {
    if p == Mal then q.inPipe == paths(argv1) && q.outPipe == paths(argv2)
    else q.inPipe == paths(argv2) && q.outPipe == paths(argv1)
  }

  // Programs with opposite roles: in every interleaving each side has shown the first
  // part of what the other side was given, and the rest is on its way in order.
  lemma FullDuplex(x: Program, y: Program, paths: Paths, argv1: string, argv2: string,
                   leftIn: seq<byte>, rightIn: seq<byte>, actions: seq<Action>)
    requires x != y && paths(argv1) != paths(argv2)
    ensures
      var w := Run(Together(x, y, paths, argv1, argv2, leftIn, rightIn), actions);
      && w.left.outPipe in w.fifos && w.right.outPipe in w.fifos
      && PlaysRole(x, w.left, paths, argv1, argv2) && PlaysRole(y, w.right, paths, argv1, argv2)
      && Flow(w.left, w.right, w.fifos) == leftIn
      && Flow(w.right, w.left, w.fifos) == rightIn
      && w.right.stdout <= leftIn
      && w.left.stdout <= rightIn
  {
    var start := Together(x, y, paths, argv1, argv2, leftIn, rightIn);
    RunKeepsFlow(start, actions);
  }

  // Programs with the same roles: both read a pipe that nobody writes.
  ghost predicate Deaf(w: World) {
    && AllOpen(w)
    && w.left.inPipe == w.right.inPipe
    && w.left.outPipe != w.left.inPipe && w.right.outPipe != w.left.inPipe
    && w.fifos[w.left.inPipe] == []
    && w.left.stdout == [] && w.right.stdout == []
    && Pipe !in w.left.events && Pipe !in w.right.events
  }

  lemma {:induction false} DeafStaysDeaf(w: World, actions: seq<Action>)
    requires Deaf(w)
    ensures Deaf(Run(w, actions))
    decreases |actions|
  {
    if actions != [] {
      DeafStep(w, actions[0]);
      DeafStaysDeaf(Next(w, actions[0]), actions[1..]);
    }
  }

  lemma DeafStep(w: World, a: Action)
    requires Deaf(w)
    ensures Deaf(Next(w, a))
  {
    var p := if a.left then w.left else w.right;
    assert p.events != [] ==> p.events[0] in p.events;
    assert forall s :: s in p.events[|p.events|..] ==> s in p.events;
    assert a.act.Wait? && Reportable(a.act.ready, []) ==> Pipe !in a.act.ready;
  }

  // ---------- carrying bytes ----------

  lemma {:induction false} RunAppend(w: World, a: seq<Action>, b: seq<Action>)
    requires AllOpen(w)
    ensures Run(w, a + b) == Run(Run(w, a), b)
    decreases |a|
  {
    hide Next;
    if a == [] {
      assert a + b == b;
    } else {
      assert (a + b)[1..] == a[1..] + b;
      RunAppend(Next(w, a[0]), a[1..], b);
    }
  }

  function Side(w: World, left: bool): Process {
    if left then w.left else w.right
  }

  function WithSide(w: World, left: bool, p: Process, fifos: Fifos): World {
    if left then World(fifos, p, w.right) else World(fifos, w.left, p)
  }

  // The process handles no event.
  predicate Calm(p: Process) {
    p.events == [] && p.held.None?
  }

  // One event, handled from its report to its write.
  function Carry(left: bool, source: Source): seq<Action> {
    [Action(left, Wait([source])), Action(left, Read(BUFFER_SIZE)), Action(left, Write)]
  }

  lemma RunCons(w: World, a: Action, rest: seq<Action>)
    requires AllOpen(w)
    ensures Run(w, [a] + rest) == Run(Next(w, a), rest)
    ensures Run(w, []) == w
  {
    hide Next;
    assert ([a] + rest)[1..] == rest;
  }

  lemma RunThree(w: World, a: Action, b: Action, c: Action)
    requires AllOpen(w)
    ensures Run(w, [a, b, c]) == Next(Next(Next(w, a), b), c)
  {
    hide Next, Run, AllOpen;
    var w1 := Next(w, a);
    var w2 := Next(w1, b);
    RunCons(w, a, [b, c]);
    RunCons(w1, b, [c]);
    RunCons(w2, c, []);
    RunCons(Next(w2, c), c, []);
    assert [a] + [b, c] == [a, b, c] && [b] + [c] == [b, c] && [c] + [] == [c];
  }

  // What one event does to a calm process: a bufferful goes from standard input to the
  // outgoing pipe, or from the incoming pipe to standard output.
  lemma CarryStdin(w: World, left: bool)
    requires AllOpen(w) && Calm(Side(w, left))
    ensures
      var p := Side(w, left);
      var k := Count(|p.stdin|, BUFFER_SIZE);
      Run(w, Carry(left, Stdin)) ==
        WithSide(w, left, p.(stdin := p.stdin[k..]), w.fifos[p.outPipe := w.fifos[p.outPipe] + p.stdin[..k]])
  {
    hide Run;
    var acts := Carry(left, Stdin);
    RunThree(w, acts[0], acts[1], acts[2]);
    assert [Stdin][1..] == [];
  }

  lemma CarryPipe(w: World, left: bool)
    requires AllOpen(w) && Calm(Side(w, left)) && w.fifos[Side(w, left).inPipe] != []
    ensures
      var p := Side(w, left);
      var pipe := w.fifos[p.inPipe];
      var k := Count(|pipe|, BUFFER_SIZE);
      Run(w, Carry(left, Pipe)) ==
        WithSide(w, left, p.(stdout := p.stdout + pipe[..k]), w.fifos[p.inPipe := pipe[k..]])
  {
    hide Run;
    var acts := Carry(left, Pipe);
    RunThree(w, acts[0], acts[1], acts[2]);
    assert [Pipe][1..] == [];
  }

  // One byte typed on the left, relayed by the left process, and read by a process
  // that watches the pipe it was written to.
  function OneByte(readerLeft: bool): seq<Action> {
    Carry(true, Stdin) + Carry(readerLeft, Pipe)
  }

  lemma RunOneByte(w: World, readerLeft: bool)
    requires AllOpen(w) && Calm(w.left) && Calm(w.right) && |w.left.stdin| == 1
    requires w.fifos[w.left.outPipe] == []
    requires Side(w, readerLeft).inPipe == w.left.outPipe
    ensures Side(Run(w, OneByte(readerLeft)), readerLeft).stdout == Side(w, readerLeft).stdout + w.left.stdin
  {
    hide Run, Carry;
    RunAppend(w, Carry(true, Stdin), Carry(readerLeft, Pipe));
    CarryStdin(w, true);
    var w1 := Run(w, Carry(true, Stdin));
    assert w1.fifos[w.left.outPipe] == w.left.stdin;
    CarryPipe(w1, readerLeft);
  }

  // ---------- nothing gets stuck ----------

  // The events of a process are distinct, data is held for the first of them, and a
  // reported pipe still holds data until the process itself has read it.
  predicate Live(p: Process, fifos: Fifos) {
    && p.inPipe in fifos
    && |p.events| <= 2 && (|p.events| == 2 ==> p.events[0] != p.events[1])
    && (p.held.Some? ==> p.events != [])
    && (Pipe in p.events && !(p.held.Some? && p.events[0] == Pipe) ==> fifos[p.inPipe] != [])
  }

  ghost predicate AllLive(w: World) {
    AllOpen(w) && Crossed(w) && Live(w.left, w.fifos) && Live(w.right, w.fifos)
  }

  // A process is the only reader of its pipe, so the other one cannot empty it.
  lemma StepKeepsLive(p: Process, q: Process, fifos: Fifos, act: Act)
    requires Open(p, fifos) && Live(p, fifos) && Live(q, fifos)
    requires p.inPipe != p.outPipe && p.outPipe == q.inPipe
    ensures
      var (p', fifos') := Step(p, fifos, act);
      Live(p', fifos') && Live(q, fifos')
  {
    assert p.events != [] ==> forall s :: s in p.events[1..] ==> s in p.events;
    assert p.events != [] ==> |p.events[1..]| <= 1;
    assert |p.events| == 2 ==> p.events[1..] == [p.events[1]];
    assert |p.events| == 1 ==> p.events[1..] == [];
  }

  lemma NextKeepsLive(w: World, a: Action)
    requires AllLive(w)
    ensures AllLive(Next(w, a))
  {
    hide Live, Step;
    StepKeepsLive(Side(w, a.left), Side(w, !a.left), w.fifos, a.act);
    StepKeepsPipes(Side(w, a.left), w.fifos, a.act);
  }

  lemma StepKeepsPipes(p: Process, fifos: Fifos, act: Act)
    requires Open(p, fifos)
    ensures
      var (p', fifos') := Step(p, fifos, act);
      p'.inPipe == p.inPipe && p'.outPipe == p.outPipe
  {
  }

  lemma {:induction false} RunKeepsLive(w: World, actions: seq<Action>)
    requires AllLive(w)
    ensures AllLive(Run(w, actions))
    decreases |actions|
  {
    hide AllLive, Next;
    if actions != [] {
      NextKeepsLive(w, actions[0]);
      LiveIsOpen(w);
      RunKeepsLive(Next(w, actions[0]), actions[1..]);
    }
  }

  lemma LiveIsOpen(w: World)
    requires AllLive(w)
    ensures AllOpen(w)
  {
  }

  // How many steps a process is away from having handled its events.
  function EventSteps(p: Process): nat {
    2 * |p.events| + if p.events != [] && p.held.None? then 1 else 0
  }

  // It is never blocked in them: its next step is a read that delivers or a write.
  lemma EventStep(w: World, left: bool)
    requires AllLive(w) && Side(w, left).events != []
    ensures
      var act := if Side(w, left).held.None? then Read(BUFFER_SIZE) else Write;
      var w' := Next(w, Action(left, act));
      && EventSteps(Side(w', left)) < EventSteps(Side(w, left))
      && Side(w', !left) == Side(w, !left)
  {
    var p := Side(w, left);
    assert p.events[0] in p.events;
    assert |p.events[1..]| == |p.events| - 1;
  }

  lemma {:induction false} CalmDown(w: World, left: bool) returns (more: seq<Action>)
    requires AllLive(w)
    ensures AllLive(Run(w, more)) && Calm(Side(Run(w, more), left))
    ensures Side(Run(w, more), !left) == Side(w, !left)
    decreases EventSteps(Side(w, left))
  {
    hide Next, EventSteps;
    more := [];
    if Side(w, left).events != [] {
      var a := Action(left, if Side(w, left).held.None? then Read(BUFFER_SIZE) else Write);
      EventStep(w, left);
      NextKeepsLive(w, a);
      var rest := CalmDown(Next(w, a), left);
      more := [a] + rest;
      assert more[1..] == rest;
    }
  }

  // Bytes still to be carried, counted once for each event they need.
  ghost function Burden(w: World): nat
    requires AllOpen(w)
  {
    2 * |w.left.stdin| + 2 * |w.right.stdin| + |w.fifos[w.left.outPipe]| + |w.fifos[w.right.outPipe]|
  }

  ghost predicate BothCalm(w: World) {
    AllLive(w) && Calm(w.left) && Calm(w.right)
  }

  // With both processes calm and bytes left, some event carries bytes on.
  lemma CarrySome(w: World) returns (more: seq<Action>)
    requires BothCalm(w) && Burden(w) > 0
    ensures BothCalm(Run(w, more)) && Burden(Run(w, more)) < Burden(w)
  {
    hide Run, Carry, AllLive;
    LiveIsOpen(w);
    LiveIsCrossed(w);
    var left := w.left.stdin != [] || w.fifos[w.left.inPipe] != [];
    var p := Side(w, left);
    if w.fifos[p.inPipe] != [] {
      more := Carry(left, Pipe);
      CarryPipe(w, left);
    } else {
      more := Carry(left, Stdin);
      CarryStdin(w, left);
    }
    RunKeepsLive(w, more);
    LiveIsOpen(Run(w, more));
  }

  lemma LiveIsCrossed(w: World)
    requires AllLive(w)
    ensures Crossed(w)
  {
  }

  lemma {:induction false} CarryAll(w: World) returns (more: seq<Action>)
    requires BothCalm(w)
    ensures BothCalm(Run(w, more)) && Burden(Run(w, more)) == 0
    decreases Burden(w)
  {
    hide Burden, BothCalm, Next;
    CalmIsOpen(w);
    if Burden(w) == 0 {
      more := [];
    } else {
      var first := CarrySome(w);
      var rest := CarryAll(Run(w, first));
      RunAppend(w, first, rest);
      more := first + rest;
    }
  }

  lemma CalmIsOpen(w: World)
    requires BothCalm(w)
    ensures AllOpen(w)
  {
  }

  // No byte is ever lost for good: from every reachable state, for any inputs, there are
  // further steps after which both sides have shown all that the other side was given.
  lemma EverythingCanArrive(x: Program, y: Program, paths: Paths, argv1: string, argv2: string,
                            leftIn: seq<byte>, rightIn: seq<byte>, actions: seq<Action>)
    requires x != y && paths(argv1) != paths(argv2)
    ensures exists more ::
      Arrived(Run(Together(x, y, paths, argv1, argv2, leftIn, rightIn), actions + more), leftIn, rightIn)
  {
    hide Run, AllLive;
    var start := Together(x, y, paths, argv1, argv2, leftIn, rightIn);
    TogetherIsLive(x, y, paths, argv1, argv2, leftIn, rightIn);
    var w := Run(start, actions);
    RunKeepsLive(start, actions);
    LiveIsOpen(w);
    var a := CalmDown(w, true);
    LiveIsOpen(Run(w, a));
    var b := CalmDown(Run(w, a), false);
    var c := CarryAll(Run(Run(w, a), b));
    RunAppend(w, a, b);
    RunAppend(w, a + b, c);
    RunAppend(start, actions, a + b + c);
    FullDuplex(x, y, paths, argv1, argv2, leftIn, rightIn, actions + (a + b + c));
    NothingLeft(Run(start, actions + (a + b + c)), leftIn, rightIn);
  }

  predicate Arrived(w: World, leftIn: seq<byte>, rightIn: seq<byte>) {
    w.right.stdout == leftIn && w.left.stdout == rightIn
  }

  lemma NothingLeft(w: World, leftIn: seq<byte>, rightIn: seq<byte>)
    requires BothCalm(w) && Burden(w) == 0
    requires Flow(w.left, w.right, w.fifos) == leftIn && Flow(w.right, w.left, w.fifos) == rightIn
    ensures Arrived(w, leftIn, rightIn)
  {
  }

  lemma TogetherIsLive(x: Program, y: Program, paths: Paths, argv1: string, argv2: string,
                       leftIn: seq<byte>, rightIn: seq<byte>)
    requires x != y && paths(argv1) != paths(argv2)
    ensures AllLive(Together(x, y, paths, argv1, argv2, leftIn, rightIn))
  {
  }

  // ---------- exact conditions ----------

  predicate NoOwnBytes(w: World, leftIn: seq<byte>, rightIn: seq<byte>) {
    w.right.stdout <= leftIn && w.left.stdout <= rightIn
  }

  // In all runs a side shows only what the other side was given, from the start and
  // in order, exactly when the two arguments lead to different pipes.
  lemma ShowsOnlyTheOtherSideIff(x: Program, y: Program, paths: Paths, argv1: string, argv2: string)
    ensures
      (forall leftIn, rightIn, actions ::
        NoOwnBytes(Run(Together(x, y, paths, argv1, argv2, leftIn, rightIn), actions), leftIn, rightIn))
      <==> paths(argv1) != paths(argv2)
  {
    if paths(argv1) != paths(argv2) {
      forall leftIn, rightIn, actions
        ensures NoOwnBytes(Run(Together(x, y, paths, argv1, argv2, leftIn, rightIn), actions), leftIn, rightIn)
      {
        if x != y {
          FullDuplex(x, y, paths, argv1, argv2, leftIn, rightIn, actions);
        } else {
          DeafStaysDeaf(Together(x, y, paths, argv1, argv2, leftIn, rightIn), actions);
        }
      }
    } else {
      var w := Together(x, y, paths, argv1, argv2, [65], []);
      RunOneByte(w, true);
      assert Run(w, OneByte(true)).left.stdout == [65];
      assert !NoOwnBytes(Run(w, OneByte(true)), [65], []);
    }
  }

  predicate Silent(w: World) {
    w.left.stdout == [] && w.right.stdout == []
  }

  // With two different pipes, anything at all gets through exactly when the two
  // programs have opposite roles.
  lemma DeliversIff(x: Program, y: Program, paths: Paths, argv1: string, argv2: string)
    requires paths(argv1) != paths(argv2)
    ensures
      (exists leftIn, rightIn, actions ::
        !Silent(Run(Together(x, y, paths, argv1, argv2, leftIn, rightIn), actions)))
      <==> x != y
  {
    if x != y {
      var w := Together(x, y, paths, argv1, argv2, [65], []);
      RunOneByte(w, false);
      assert Run(w, OneByte(false)).right.stdout == [65];
      assert !Silent(Run(w, OneByte(false)));
    } else {
      forall leftIn, rightIn, actions
        ensures Silent(Run(Together(x, y, paths, argv1, argv2, leftIn, rightIn), actions))
      {
        DeafStaysDeaf(Together(x, y, paths, argv1, argv2, leftIn, rightIn), actions);
      }
    }
  }
}
