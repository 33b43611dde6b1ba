// The message pump with its ring of twenty slots and no check for a full ring.
module MessagePump {
  import opened Basics

  const CAPACITY: nat := 20

  // ---------- what happens, without the ring ----------

  // One step that matters to the queue: a message from standard input is stored, or
  // the output pipe is ready and the queue is drained.
  datatype Step<M> = Enqueue(msg: M) | Drain

  // All messages stored, those stored since the last drain, and the sizes of the
  // backlogs at the drains.
  datatype History<M> = History(stored: seq<M>, backlog: seq<M>, drained: seq<seq<M>>)

  function Record<M>(h: History<M>, step: Step<M>): History<M> {
    match step
    case Enqueue(msg) => History(h.stored + [msg], h.backlog + [msg], h.drained)
    case Drain => History(h.stored, [], h.drained + [h.backlog])
  }

  function RecordAll<M>(h: History<M>, steps: seq<Step<M>>): History<M>
    decreases |steps|
  {
    if steps == [] then h else RecordAll(Record(h, steps[0]), steps[1..])
  }

  // What a drain of the ring sends after `backlog` was stored: the last k mod 20
  // messages of the backlog.
  function Survivors<M>(backlog: seq<M>): (r: seq<M>)
    ensures |r| == |backlog| % 20 && forall i :: 0 <= i < |r| ==> r[i] == backlog[|backlog| - |r| + i]
  {
    backlog[|backlog| - |backlog| % CAPACITY..]
  }

  function SentBy<M>(drained: seq<seq<M>>): seq<M> {
    if drained == [] then []
    else SentBy(drained[..|drained| - 1]) + Survivors(drained[|drained| - 1])
  }

  function Stored<M>(drained: seq<seq<M>>): seq<M> {
    if drained == [] then []
    else Stored(drained[..|drained| - 1]) + drained[|drained| - 1]
  }

  // ---------- the ring ----------

  // Where the j-th message of a backlog goes when the backlog starts at slot `start`.
  function Slot(start: nat, j: nat): (slot: nat)
    ensures slot < CAPACITY
  {
    (start + j) % CAPACITY
  }

  // The ring holds the latest twenty messages of the backlog in their slots, and its
  // end index has gone round with every one of them.
  ghost predicate Holds<M>(slots: seq<M>, start: nat, end: nat, backlog: seq<M>) {
    && |slots| == CAPACITY && start < CAPACITY
    && end == Slot(start, |backlog|)
    && forall j :: 0 <= j < |backlog| && |backlog| <= j + CAPACITY ==> slots[Slot(start, j)] == backlog[j]
  }

  // The messages the ring itself would send: those from the start index up to the end
  // index.
  function Pending<M>(slots: seq<M>, start: nat, end: nat): seq<M>
    requires |slots| == CAPACITY && start < CAPACITY && end < CAPACITY
  {
    var k := (end + CAPACITY - start) % CAPACITY;
    seq(k, j requires 0 <= j < k => slots[Slot(start, j)])
  }

  // The ring as a value, with what it has sent.
  datatype Ring<M> = Ring(slots: seq<M>, start: nat, end: nat, sent: seq<M>) {
    predicate Ok() {
      |slots| == CAPACITY && start < CAPACITY && end < CAPACITY
    }

    function Content(): seq<M>
      requires Ok()
    {
      Pending(slots, start, end)
    }

    predicate Fresh() {
      Ok() && start == end && sent == []
    }
  }

  function RingStep<M>(r: Ring<M>, step: Step<M>): (r': Ring<M>)
    requires r.Ok()
    ensures r'.Ok()
  {
    match step
    case Enqueue(msg) => r.(slots := r.slots[r.end := msg], end := (r.end + 1) % CAPACITY)
    case Drain => r.(sent := r.sent + r.Content(), start := r.end)
  }

  function RingRun<M>(r: Ring<M>, steps: seq<Step<M>>): (r': Ring<M>)
    requires r.Ok()
    ensures r'.Ok()
    decreases |steps|
  {
    if steps == [] then r else RingRun(RingStep(r, steps[0]), steps[1..])
  }

  lemma SlotNext(start: nat, j: nat)
    ensures (Slot(start, j) + 1) % CAPACITY == Slot(start, j + 1)
  {
  }

  // Two messages share a slot only if a multiple of twenty apart.
  lemma SlotInjective(start: nat, i: nat, j: nat)
    requires i < j < i + CAPACITY
    ensures Slot(start, i) != Slot(start, j)
  {
  }

  lemma ModSum(x: nat, y: nat)
    ensures (x + y) % CAPACITY == (x % CAPACITY + y % CAPACITY) % CAPACITY
  {
  }

  lemma SlotPeriodic(start: nat, i: nat, j: nat)
    requires i % CAPACITY == j % CAPACITY
    ensures Slot(start, i) == Slot(start, j)
  {
    ModSum(start, i);
    ModSum(start, j);
  }

  // How far a slot is from the start, going round the ring.
  lemma SlotDistance(start: nat, n: nat)
    requires start < CAPACITY
    ensures (Slot(start, n) + CAPACITY - start) % CAPACITY == n % CAPACITY
  {
    ModSum(start, n);
  }

  lemma StoreKeepsHolds<M>(slots: seq<M>, start: nat, end: nat, backlog: seq<M>, msg: M)
    requires Holds(slots, start, end, backlog)
    ensures end < CAPACITY
    ensures Holds(slots[end := msg], start, (end + 1) % CAPACITY, backlog + [msg])
  {
    SlotNext(start, |backlog|);
    forall j | 0 <= j < |backlog| && |backlog| + 1 <= j + CAPACITY
      ensures Slot(start, j) != end
    {
      SlotInjective(start, j, |backlog|);
    }
  }

  // What the drain loop finds after n messages have been sent.
  lemma DrainStep<M>(slots: seq<M>, start: nat, end: nat, backlog: seq<M>, n: nat)
    requires Holds(slots, start, end, backlog) && n <= |backlog| % CAPACITY
    ensures end < CAPACITY == |slots| && Slot(start, 0) == start && Slot(start, n) < CAPACITY
    ensures |Survivors(backlog)| == |backlog| % CAPACITY
    ensures Slot(start, n) == end <==> n == |backlog| % CAPACITY
    ensures n < |backlog| % CAPACITY ==>
      && slots[Slot(start, n)] == Survivors(backlog)[n]
      && (Slot(start, n) + 1) % CAPACITY == Slot(start, n + 1)
  {
    hide Slot, Survivors;
    MeetIff(start, |backlog|, n);
    SlotNext(start, n);
    SlotZero(start);
    SurvivorsLength(backlog);
    if n < |backlog| % CAPACITY {
      SurvivorInSlot(slots, start, end, backlog, n);
    }
  }

  lemma SlotZero(start: nat)
    requires start < CAPACITY
    ensures Slot(start, 0) == start
  {
  }

  lemma SurvivorInSlot<M>(slots: seq<M>, start: nat, end: nat, backlog: seq<M>, n: nat)
    requires Holds(slots, start, end, backlog) && n < |backlog| % CAPACITY
    ensures Slot(start, n) < CAPACITY && slots[Slot(start, n)] == Survivors(backlog)[n]
  {
    hide Slot;
    var first := |backlog| - |backlog| % CAPACITY;
    assert first % CAPACITY == 0;
    assert (first + n) % CAPACITY == n % CAPACITY;
    SlotPeriodic(start, n, first + n);
    assert slots[Slot(start, first + n)] == backlog[first + n];
  }

  lemma SurvivorsLength<M>(backlog: seq<M>)
    ensures |Survivors(backlog)| == |backlog| % CAPACITY
  {
  }

  // What the ring would send are the survivors of the backlog.
  lemma PendingIsSurvivors<M>(slots: seq<M>, start: nat, end: nat, backlog: seq<M>)
    requires Holds(slots, start, end, backlog)
    ensures end < CAPACITY && Pending(slots, start, end) == Survivors(backlog)
  {
    hide Slot, Survivors;
    var k := |backlog| % CAPACITY;
    SlotDistance(start, |backlog|);
    SurvivorsLength(backlog);
    forall j | 0 <= j < k
      ensures slots[Slot(start, j)] == Survivors(backlog)[j]
    {
      SurvivorInSlot(slots, start, end, backlog, j);
    }
  }

  lemma HoldsNothing<M>(slots: seq<M>, end: nat)
    requires |slots| == CAPACITY && end < CAPACITY
    ensures Holds(slots, end, end, [])
  {
  }

  lemma DrainTotals<M>(h: History<M>)
    ensures
      var h' := Record(h, Drain);
      && SentBy(h'.drained) == SentBy(h.drained) + Survivors(h.backlog)
      && Stored(h'.drained) + h'.backlog == Stored(h.drained) + h.backlog
  {
    var drained := h.drained + [h.backlog];
    assert drained[..|h.drained|] == h.drained;
    assert Stored(drained) + [] == Stored(drained);
  }

  // The ring as an object, and the program's loop around it.
  class Pump<M(0)> {
    const sendQueue: array<M>
    var startQueue: nat
    var endQueue: nat
    var received: seq<M>           // messages shown from the input pipe
    var sent: seq<M>               // messages written to the output pipe
    ghost var history: History<M>

    ghost predicate Valid()
      reads this, sendQueue
    {
      && Holds(sendQueue[..], startQueue, endQueue, history.backlog)
      && sent == SentBy(history.drained)
      && history.stored == Stored(history.drained) + history.backlog
    }

    ghost function View(): Ring<M>
      reads this, sendQueue
    {
      Ring(sendQueue[..], startQueue, endQueue, sent)
    }

    constructor ()
      ensures Valid() && fresh(sendQueue) && View().Fresh()
      ensures history == History([], [], []) && received == []
    {
      sendQueue := new M[CAPACITY];
      startQueue, endQueue, received, sent := 0, 0, [], [];
      history := History([], [], []);
    }

    method Store(msg: M)
      requires Valid()
      modifies this`endQueue, this`history, sendQueue
      ensures Valid() && history == Record(old(history), Enqueue(msg))
      ensures old(View()).Ok() && View() == RingStep(old(View()), Enqueue(msg))
    {
      StoreKeepsHolds(sendQueue[..], startQueue, endQueue, history.backlog, msg);
      AppendAssociative(Stored(history.drained), history.backlog, [msg]);
      sendQueue[endQueue] := msg;
      endQueue := endQueue + 1;
      endQueue := endQueue % CAPACITY;
      history := Record(history, Enqueue(msg));
    }

    // The inner loop: it stops when the two indices meet.
    method DrainAll()
      requires Valid()
      modifies this`startQueue, this`sent, this`history
      ensures Valid() && history == Record(old(history), Drain)
      ensures old(View()).Ok() && View() == RingStep(old(View()), Drain)
      ensures sent == old(sent) + Survivors(old(history).backlog)
    {
      hide SentBy, Stored, Slot, Holds;
      ghost var backlog, start, slots := history.backlog, startQueue, sendQueue[..];
      ghost var n := 0;
      PendingIsSurvivors(slots, start, endQueue, backlog);
      DrainStep(slots, start, endQueue, backlog, 0);
      while startQueue != endQueue
        invariant 0 <= n <= |backlog| % CAPACITY
        invariant startQueue == Slot(start, n)
        invariant sent == old(sent) + Survivors(backlog)[..n]
        invariant history == old(history)
        decreases |backlog| % CAPACITY - n
      {
        DrainStep(slots, start, endQueue, backlog, n);
        sent := sent + [sendQueue[startQueue]];
        startQueue := startQueue + 1;
        startQueue := startQueue % CAPACITY;
        n := n + 1;
      }
      DrainStep(slots, start, endQueue, backlog, n);
      assert Survivors(backlog)[..n] == Survivors(backlog);
      DrainTotals(history);
      history := Record(history, Drain);
      HoldsNothing(slots, endQueue);
    }

    // One pass of the endless loop.
    method Pass(ready: Ready<M>)
      requires Valid()
      modifies this, sendQueue
      ensures Valid()
      ensures received == old(received) + ReceivedIn(ready)
      ensures history == RecordAll(old(history), StepsOf(ready))
      ensures old(View()).Ok() && View() == RingRun(old(View()), StepsOf(ready))
    {
      hide Holds, SentBy, Stored;
      ValidIsOk();
      RecordSteps(history, ready);
      RingSteps(View(), ready);
      if ready.fromPipe.Some? {
        received := received + [ready.fromPipe.value];
      }
      if ready.fromStdin.Some? {
        Store(ready.fromStdin.value);
      }
      if ready.canWrite {
        DrainAll();
      }
    }

    // The endless loop, as far as a script of select results goes.
    method Loop(script: seq<Ready<M>>)
      requires Valid()
      modifies this, sendQueue
      ensures Valid()
      ensures history == RecordAll(old(history), AllSteps(script))
      ensures old(View()).Ok() && View() == RingRun(old(View()), AllSteps(script))
      ensures received == old(received) + AllReceived(script)
    {
      hide Holds, SentBy, Stored, RingStep, Record;
      ValidIsOk();
      for i := 0 to |script|
        invariant Valid()
        invariant history == RecordAll(old(history), AllSteps(script[..i]))
        invariant View() == RingRun(old(View()), AllSteps(script[..i]))
        invariant received == old(received) + AllReceived(script[..i])
      {
        assert script[..i + 1][..i] == script[..i];
        RecordAllAppend(old(history), AllSteps(script[..i]), StepsOf(script[i]));
        RingRunAppend(old(View()), AllSteps(script[..i]), StepsOf(script[i]));
        AppendAssociative(old(received), AllReceived(script[..i]), ReceivedIn(script[i]));
        Pass(script[i]);
      }
      assert script[..|script|] == script;
    }

    // With no unsent messages the ring is empty.
    lemma NothingWaiting()
      requires Valid()
      ensures View().Ok() && (history.backlog == [] ==> View().Content() == [])
    {
      PendingIsSurvivors(sendQueue[..], startQueue, endQueue, history.backlog);
    }

    lemma ValidIsOk()
      requires Valid()
      ensures View().Ok()
    {
    }
  }

  // The program from its start, for as many passes as the script has: every message
  // stored has been sent or is in the ring, in order, iff there were never twenty
  // unsent messages.
  method RunPump<M(0)>(script: seq<Ready<M>>) returns (pump: Pump<M>)
    ensures fresh(pump) && pump.Valid() && pump.View().Ok()
    ensures Lists(pump.received, FromPipe(script))
    ensures Lists(pump.history.stored, FromStdin(script))
    ensures pump.sent + pump.View().Content() == pump.history.stored <==> NeverTwenty(script)
    ensures script != [] && script[|script| - 1].canWrite ==> pump.View().Content() == []
  {
    hide Lists, NeverFull, Pump.Valid;
    pump := new Pump();
    ghost var start := pump.View();
    pump.Loop(script);
    RunRefinesQueueIff(start, AllSteps(script));
    HistoryOfScript(script);
    ReceivedAreListed(script);
    assert [] + AllReceived(script) == AllReceived(script);
    pump.NothingWaiting();
  }

  // What select found: a message on the input pipe, one on standard input, and room
  // in the output pipe.
  datatype Ready<M> = Ready(fromPipe: Option<M>, fromStdin: Option<M>, canWrite: bool)

  function StepsOf<M>(ready: Ready<M>): seq<Step<M>> {
    (if ready.fromStdin.Some? then [Enqueue(ready.fromStdin.value)] else [])
    + if ready.canWrite then [Drain] else []
  }

  function ReceivedIn<M>(ready: Ready<M>): seq<M> {
    if ready.fromPipe.Some? then [ready.fromPipe.value] else []
  }

  function AllReceived<M>(script: seq<Ready<M>>): seq<M> {
    if script == [] then [] else AllReceived(script[..|script| - 1]) + ReceivedIn(script[|script| - 1])
  }

  function AllSteps<M>(script: seq<Ready<M>>): seq<Step<M>> {
    if script == [] then [] else AllSteps(script[..|script| - 1]) + StepsOf(script[|script| - 1])
  }

  // ---------- what a script delivers ----------

  function FromPipe<M>(script: seq<Ready<M>>): seq<Option<M>> {
    seq(|script|, i requires 0 <= i < |script| => script[i].fromPipe)
  }

  function FromStdin<M>(script: seq<Ready<M>>): seq<Option<M>> {
    seq(|script|, i requires 0 <= i < |script| => script[i].fromStdin)
  }

  // How many of the first k passes deliver a message.
  function Count<M>(from: seq<Option<M>>, k: nat): nat
    requires k <= |from|
  {
    if k == 0 then 0 else Count(from, k - 1) + if from[k - 1].Some? then 1 else 0
  }

  // These are the messages that the passes deliver, all of them and in order.
  ghost predicate Lists<M>(got: seq<M>, from: seq<Option<M>>) {
    && |got| == Count(from, |from|)
    && forall k :: 0 <= k < |from| && from[k].Some? ==>
         Count(from, k) < |got| && got[Count(from, k)] == from[k].value
  }

  lemma {:induction false} CountInPrefix<M>(from: seq<Option<M>>, n: nat, k: nat)
    requires k <= n <= |from|
    ensures Count(from[..n], k) == Count(from, k)
    decreases k
  {
    if k > 0 {
      CountInPrefix(from, n, k - 1);
    }
  }

  lemma ListsNext<M>(got: seq<M>, from: seq<Option<M>>, next: Option<M>)
    requires Lists(got, from)
    ensures Lists(got + (if next.Some? then [next.value] else []), from + [next])
  {
    var from', n := from + [next], |from|;
    assert from'[..n] == from;
    forall k | 0 <= k <= n
      ensures Count(from', k) == Count(from, k)
    {
      CountInPrefix(from', n, k);
    }
  }

  // The messages shown are those of the input pipe.
  lemma {:induction false} ReceivedAreListed<M>(script: seq<Ready<M>>)
    ensures Lists(AllReceived(script), FromPipe(script))
  {
    if script != [] {
      var n := |script| - 1;
      ReceivedAreListed(script[..n]);
      assert FromPipe(script) == FromPipe(script[..n]) + [script[n].fromPipe];
      ListsNext(AllReceived(script[..n]), FromPipe(script[..n]), script[n].fromPipe);
    }
  }

  // How many unsent messages there are in pass j before its drain, if it has one: those
  // that have come from standard input since the last pass with room in the output pipe.
  function Unsent<M>(script: seq<Ready<M>>, j: nat): nat
    requires j < |script|
  {
    (if j > 0 && !script[j - 1].canWrite then Unsent(script, j - 1) else 0)
    + if script[j].fromStdin.Some? then 1 else 0
  }

  lemma {:induction false} UnsentInPrefix<M>(script: seq<Ready<M>>, n: nat, j: nat)
    requires j < n <= |script|
    ensures Unsent(script[..n], j) == Unsent(script, j)
    decreases j
  {
    if j > 0 {
      UnsentInPrefix(script, n, j - 1);
    }
  }

  function Waiting<M>(script: seq<Ready<M>>): nat {
    var n := |script|;
    if n == 0 || script[n - 1].canWrite then 0 else Unsent(script, n - 1)
  }

  ghost predicate NeverTwenty<M>(script: seq<Ready<M>>) {
    forall j :: 0 <= j < |script| ==> Unsent(script, j) < 20
  }

  // The history of a script: what it stores are the messages of standard input, what
  // waits is what has come since the last room, and it is never full exactly when there
  // were never twenty unsent messages.
  lemma {:induction false} HistoryOfScript<M>(script: seq<Ready<M>>)
    ensures
      var h := RecordAll(History([], [], []), AllSteps(script));
      && Lists(h.stored, FromStdin(script))
      && |h.backlog| == Waiting(script)
      && (NeverFull(h) <==> NeverTwenty(script))
  {
    hide RecordAll, Record, Lists, Unsent;
    var empty: History<M> := History([], [], []);
    if script == [] {
      EmptyScript<M>();
    } else {
      var n := |script| - 1;
      var init, last := script[..n], script[n];
      HistoryOfScript(init);
      RecordAllAppend(empty, AllSteps(init), StepsOf(last));
      var h := RecordAll(empty, AllSteps(init));
      RecordSteps(h, last);
      assert FromStdin(script) == FromStdin(init) + [last.fromStdin];
      ListsNext(h.stored, FromStdin(init), last.fromStdin);
      forall j | 0 <= j < n
        ensures Unsent(init, j) == Unsent(script, j)
      {
        UnsentInPrefix(script, n, j);
      }
      PassRecorded(h, last);
      NeverFullNext(h, script);
    }
  }

  lemma EmptyScript<M>()
    ensures
      var none: seq<Ready<M>> := [];
      var h: History<M> := RecordAll(History([], [], []), AllSteps(none));
      h == History([], [], []) && Lists(h.stored, FromStdin(none))
  {
  }

  lemma PassRecorded<M>(h: History<M>, ready: Ready<M>)
    ensures
      var h' := RecordAll(h, StepsOf(ready));
      var came := if ready.fromStdin.Some? then [ready.fromStdin.value] else [];
      && h'.stored == h.stored + came
      && h'.backlog == (if ready.canWrite then [] else h.backlog + came)
      && h'.drained == h.drained + if ready.canWrite then [h.backlog + came] else []
  {
    RecordSteps(h, ready);
    assert h.stored + [] == h.stored && h.backlog + [] == h.backlog && h.drained + [] == h.drained;
  }

  lemma NeverFullNext<M>(h: History<M>, script: seq<Ready<M>>)
    requires script != []
    requires
      var n := |script| - 1;
      && |h.backlog| == Waiting(script[..n])
      && (NeverFull(h) <==> NeverTwenty(script[..n]))
      && forall j :: 0 <= j < n ==> Unsent(script[..n], j) == Unsent(script, j)
    ensures
      var h' := RecordAll(h, StepsOf(script[|script| - 1]));
      |h'.backlog| == Waiting(script) && (NeverFull(h') <==> NeverTwenty(script))
  {
    hide RecordAll, Record, StepsOf;
    var n := |script| - 1;
    PassRecorded(h, script[n]);
    assert n > 0 ==> script[..n][n - 1] == script[n - 1];
    assert NeverTwenty(script) <==> NeverTwenty(script[..n]) && Unsent(script, n) < 20;
    var h' := RecordAll(h, StepsOf(script[n]));
    assert forall i :: 0 <= i < |h.drained| ==> h'.drained[i] == h.drained[i];
    assert script[n].canWrite ==> |h'.drained[|h.drained|]| == Unsent(script, n);
  }

  lemma RecordSteps<M>(h: History<M>, ready: Ready<M>)
    ensures
      var h1 := if ready.fromStdin.Some? then Record(h, Enqueue(ready.fromStdin.value)) else h;
      RecordAll(h, StepsOf(ready)) == if ready.canWrite then Record(h1, Drain) else h1
  {
    var steps := StepsOf(ready);
    if steps != [] {
      assert RecordAll(h, steps) == RecordAll(Record(h, steps[0]), steps[1..]);
    }
  }

  lemma {:induction false} RecordAllAppend<M>(h: History<M>, a: seq<Step<M>>, b: seq<Step<M>>)
    ensures RecordAll(h, a + b) == RecordAll(RecordAll(h, a), b)
    decreases |a|
  {
    if a == [] {
      assert a + b == b;
    } else {
      assert (a + b)[1..] == a[1..] + b;
      RecordAllAppend(Record(h, a[0]), a[1..], b);
    }
  }

  lemma RingSteps<M>(r: Ring<M>, ready: Ready<M>)
    requires r.Ok()
    ensures
      var r1 := if ready.fromStdin.Some? then RingStep(r, Enqueue(ready.fromStdin.value)) else r;
      RingRun(r, StepsOf(ready)) == if ready.canWrite then RingStep(r1, Drain) else r1
  {
    var steps := StepsOf(ready);
    if steps != [] {
      assert RingRun(r, steps) == RingRun(RingStep(r, steps[0]), steps[1..]);
    }
  }

  lemma {:induction false} RingRunAppend<M>(r: Ring<M>, a: seq<Step<M>>, b: seq<Step<M>>)
    requires r.Ok()
    ensures RingRun(r, a + b) == RingRun(RingRun(r, a), b)
    decreases |a|
  {
    if a == [] {
      assert a + b == b;
    } else {
      assert (a + b)[1..] == a[1..] + b;
      RingRunAppend(RingStep(r, a[0]), a[1..], b);
    }
  }

  // The indices meet after exactly k mod 20 steps.
  lemma MeetIff(start: nat, k: nat, n: nat)
    requires n <= k % CAPACITY
    ensures Slot(start, n) == Slot(start, k) <==> n == k % CAPACITY
  {
    if n == k % CAPACITY {
      SlotPeriodic(start, n, k);
    } else {
      SlotPeriodic(start, k % CAPACITY, k);
      SlotInjective(start, n, k % CAPACITY);
    }
  }

  // ---------- against an unbounded queue ----------

  ghost predicate Tracks<M>(h: History<M>) {
    h.stored == Stored(h.drained) + h.backlog
  }

  ghost predicate NeverOverfull<M>(drained: seq<seq<M>>) {
    forall i :: 0 <= i < |drained| ==> |drained[i]| < CAPACITY
  }

  // How many of k stored messages the ring no longer holds.
  function Overwritten(k: nat): nat {
    k / CAPACITY * CAPACITY
  }

  // How many messages the drains lost: twenty for each time the ring went round.
  function Lost<M>(drained: seq<seq<M>>): nat {
    if drained == [] then 0
    else Lost(drained[..|drained| - 1]) + Overwritten(|drained[|drained| - 1]|)
  }

  lemma SurvivorsOrLost<M>(backlog: seq<M>)
    ensures |Survivors(backlog)| + Overwritten(|backlog|) == |backlog|
    ensures Overwritten(|backlog|) == 0 <==> |backlog| < CAPACITY
    ensures |backlog| < CAPACITY ==> Survivors(backlog) == backlog
  {
  }

  lemma {:induction false} SentPlusLost<M>(drained: seq<seq<M>>)
    ensures |SentBy(drained)| + Lost(drained) == |Stored(drained)|
    ensures Lost(drained) == 0 <==> NeverOverfull(drained)
    ensures NeverOverfull(drained) ==> SentBy(drained) == Stored(drained)
  {
    hide Survivors, Overwritten;
    if drained != [] {
      var init, last := drained[..|drained| - 1], drained[|drained| - 1];
      SentPlusLost(init);
      SurvivorsOrLost(last);
      assert drained == init + [last];
    }
  }

  // No drain found twenty unsent messages, and there are not twenty now.
  ghost predicate NeverFull<M>(h: History<M>) {
    NeverOverfull(h.drained) && |h.backlog| < CAPACITY
  }

  // The ring refines an unbounded queue, with every stored message either sent or
  // still in the ring, exactly when there have never been twenty unsent messages.
  lemma RefinesQueueIff<M>(h: History<M>, slots: seq<M>, start: nat, end: nat)
    requires Tracks(h) && Holds(slots, start, end, h.backlog)
    ensures end < CAPACITY
    ensures SentBy(h.drained) + Pending(slots, start, end) == h.stored <==> NeverFull(h)
    ensures |SentBy(h.drained)| + |Pending(slots, start, end)| +
      (Lost(h.drained) + Overwritten(|h.backlog|)) == |h.stored|
  {
    hide Holds, Survivors, Overwritten, Pending, SentBy, Stored, Lost;
    PendingIsSurvivors(slots, start, end, h.backlog);
    SentPlusLost(h.drained);
    SurvivorsOrLost(h.backlog);
  }

  // What the ring and the history of the same steps have in common.
  ghost predicate Agree<M>(r: Ring<M>, h: History<M>) {
    Tracks(h) && Holds(r.slots, r.start, r.end, h.backlog) && r.sent == SentBy(h.drained)
  }

  lemma StepKeepsAgree<M>(r: Ring<M>, h: History<M>, step: Step<M>)
    requires r.Ok() && Agree(r, h)
    ensures Agree(RingStep(r, step), Record(h, step))
  {
    hide Holds;
    match step
    case Enqueue(msg) =>
      StoreKeepsHolds(r.slots, r.start, r.end, h.backlog, msg);
      AppendAssociative(Stored(h.drained), h.backlog, [msg]);
    case Drain =>
      DrainTotals(h);
      PendingIsSurvivors(r.slots, r.start, r.end, h.backlog);
      HoldsNothing(r.slots, r.end);
  }

  lemma {:induction false} RunKeepsAgree<M>(r: Ring<M>, h: History<M>, steps: seq<Step<M>>)
    requires r.Ok() && Agree(r, h)
    ensures Agree(RingRun(r, steps), RecordAll(h, steps))
    decreases |steps|
  {
    hide Agree, RingStep, Record;
    if steps != [] {
      StepKeepsAgree(r, h, steps[0]);
      RunKeepsAgree(RingStep(r, steps[0]), Record(h, steps[0]), steps[1..]);
    }
  }

  // Over whole runs from an empty ring.
  lemma RunRefinesQueueIff<M>(r: Ring<M>, steps: seq<Step<M>>)
    requires r.Fresh()
    ensures
      var (r', h) := (RingRun(r, steps), RecordAll(History([], [], []), steps));
      && (r'.sent + r'.Content() == h.stored <==> NeverFull(h))
      && |r'.sent| + |r'.Content()| + (Lost(h.drained) + Overwritten(|h.backlog|)) == |h.stored|
  {
    hide RingRun, RecordAll, SentBy, Lost, Pending, NeverFull, Overwritten;
    var empty: History<M> := History([], [], []);
    FreshAgrees(r);
    RunKeepsAgree(r, empty, steps);
    var r', h := RingRun(r, steps), RecordAll(empty, steps);
    RefinesQueueIff(h, r'.slots, r'.start, r'.end);
  }

  lemma FreshAgrees<M>(r: Ring<M>)
    requires r.Fresh()
    ensures Agree(r, History([], [], []))
  {
  }

  // The number of unsent messages that breaks the ring: after twenty stores without a
  // drain it holds nothing, and all twenty are lost.
  lemma TwentyStoresAreLost<M>(r: Ring<M>, msgs: seq<M>)
    requires r.Fresh() && |msgs| == 20
    ensures
      var r' := RingRun(r, Stores(msgs));
      r'.start == r'.end && r'.Content() == [] && r'.sent == []
    ensures RecordAll(History([], [], []), Stores(msgs)).stored == msgs
  {
    hide RingRun, RecordAll, Agree;
    var empty: History<M> := History([], [], []);
    FreshAgrees(r);
    RunKeepsAgree(r, empty, Stores(msgs));
    RecordStores(empty, msgs);
    assert [] + msgs == msgs;
    var r' := RingRun(r, Stores(msgs));
    AgreeAfterStores(r', History(msgs, msgs, []));
  }

  lemma AgreeAfterStores<M>(r: Ring<M>, h: History<M>)
    requires r.Ok() && Agree(r, h) && h.drained == [] && |h.backlog| == CAPACITY
    ensures r.start == r.end && r.Content() == [] && r.sent == []
  {
    PendingIsSurvivors(r.slots, r.start, r.end, h.backlog);
  }

  function Stores<M>(msgs: seq<M>): seq<Step<M>> {
    if msgs == [] then [] else [Enqueue(msgs[0])] + Stores(msgs[1..])
  }

  lemma {:induction false} RecordStores<M>(h: History<M>, msgs: seq<M>)
    ensures RecordAll(h, Stores(msgs)) == History(h.stored + msgs, h.backlog + msgs, h.drained)
    decreases |msgs|
  {
    if msgs == [] {
      assert h.stored + msgs == h.stored && h.backlog + msgs == h.backlog;
    } else {
      assert Stores(msgs)[1..] == Stores(msgs[1..]);
      RecordStores(Record(h, Enqueue(msgs[0])), msgs[1..]);
      assert [msgs[0]] + msgs[1..] == msgs;
      AppendAssociative(h.stored, [msgs[0]], msgs[1..]);
      AppendAssociative(h.backlog, [msgs[0]], msgs[1..]);
    }
  }

  // Twenty unsent messages make the ring look empty: the drain sends none of them.
  lemma FullRingLooksEmpty<M>(slots: seq<M>, start: nat, end: nat, backlog: seq<M>)
    requires Holds(slots, start, end, backlog)
    ensures start == end <==> |backlog| % 20 == 0
    ensures start == end <==> Survivors(backlog) == []
  {
    MeetIff(start, |backlog|, 0);
  }
}
