// QEMU's output as a value: accumulation, decoding and fan-out to the monitors.
module Output {
  import opened Basics
  import opened Text
  import opened Lines
  import opened Monitors

  // A registered callback: the log file of `save`, or the line watcher of
  // `call_on_line` and `stop_on_line`.
  datatype Monitor = Save(written: seq<byte>) | OnLine(watch: Watch, state: LineState)

  // Calling it with one chunk; the flag says that it raised.
  function Notify(m: Monitor, chunk: seq<byte>): (Monitor, bool) {
    match m
    case Save(written) => (Save(written + chunk), false)
    case OnLine(watch, state) =>
      var (after, raised) := HandleOutput(watch, state, chunk);
      (OnLine(watch, after), raised)
  }

  function Heard(m: Monitor): seq<byte> {
    match m
    case Save(written) => written
    case OnLine(_, state) => HeardLines(state)
  }

  ghost predicate Honest(m: Monitor) {
    m.OnLine? ==> Faithful(m.watch, m.state)
  }

  // The callback loop from monitor i on, and the monitor whose exception ended it.
  function Deliver(ms: seq<Monitor>, i: nat, chunk: seq<byte>): (seq<Monitor>, Option<nat>)
    requires i <= |ms|
    decreases |ms| - i
  {
    if i == |ms| then (ms, None)
    else
      var (m, raised) := Notify(ms[i], chunk);
      if raised then (ms[i := m], Some(i)) else Deliver(ms[i := m], i + 1, chunk)
  }

  // A read of QEMU's output: the bytes and the monitor that raised, if any.
  datatype Reading = Reading(chunk: seq<byte>, raisedBy: Option<nat>) {
    predicate Reached(k: nat) {
      raisedBy.None? || k <= raisedBy.value
    }
  }

  // `history` lists the handle_read calls.
  datatype Qemu = Qemu(open: bool, outbytes: seq<byte>, output: string,
                       monitors: seq<Monitor>, history: seq<Reading>)

  // One handle_read with the bytes os.read returned; none mean end of file.  If a
  // monitor raises, the process is not waited for even at end of file.
  function Read(q: Qemu, chunk: seq<byte>): (Qemu, bool) {
    var outbytes := q.outbytes + chunk;
    var (monitors, raisedBy) := Deliver(q.monitors, 0, chunk);
    (Qemu(q.open && (raisedBy.Some? || chunk != []), outbytes, DecodeUtf8(outbytes),
          monitors, q.history + [Reading(chunk, raisedBy)]),
     raisedBy.Some?)
  }

  // ---------- fan-out ----------

  // What one round of the loop, starting at monitor i, did to monitor k.
  ghost predicate Delivered(before: Monitor, after: Monitor, i: nat, r: Reading, k: nat) {
    if i <= k && r.Reached(k) then
      after == Notify(before, r.chunk).0 && (Notify(before, r.chunk).1 <==> r.raisedBy == Some(k))
    else
      after == before
  }

  // A chunk reaches the monitors in order up to and including the first that raises.
  lemma {:induction false} DeliverReaches(ms: seq<Monitor>, i: nat, chunk: seq<byte>)
    requires i <= |ms|
    ensures
      var (after, raisedBy) := Deliver(ms, i, chunk);
      && |after| == |ms|
      && (raisedBy.Some? ==> i <= raisedBy.value < |ms|)
      && forall k :: 0 <= k < |ms| ==> Delivered(ms[k], after[k], i, Reading(chunk, raisedBy), k)
    decreases |ms| - i
  {
    hide Notify;
    if i < |ms| {
      var (m, raised) := Notify(ms[i], chunk);
      var (after, raisedBy) := Deliver(ms, i, chunk);
      if !raised {
        DeliverReaches(ms[i := m], i + 1, chunk);
        forall k | 0 <= k < |ms|
          ensures Delivered(ms[k], after[k], i, Reading(chunk, raisedBy), k)
        {
          assert Delivered(ms[i := m][k], after[k], i + 1, Reading(chunk, raisedBy), k);
        }
      }
    }
  }

  lemma NotifyHears(m: Monitor, chunk: seq<byte>)
    requires Honest(m)
    ensures Honest(Notify(m, chunk).0)
    ensures Heard(Notify(m, chunk).0) == Heard(m) + chunk
  {
    if m.OnLine? {
      HandleOutputHears(m.watch, m.state, chunk);
    }
  }

  // ---------- histories ----------

  function AllRead(history: seq<Reading>): seq<byte> {
    if history == [] then []
    else AllRead(history[..|history| - 1]) + history[|history| - 1].chunk
  }

  // The chunks that reached monitor k: all but those on which an earlier monitor raised.
  function ReachedBy(history: seq<Reading>, k: nat): seq<byte> {
    if history == [] then []
    else
      var last := history[|history| - 1];
      ReachedBy(history[..|history| - 1], k) + if last.Reached(k) then last.chunk else []
  }

  ghost predicate OnlyWatchersRaised(q: Qemu) {
    forall i :: 0 <= i < |q.history| && q.history[i].raisedBy.Some? ==>
      q.history[i].raisedBy.value < |q.monitors| && q.monitors[q.history[i].raisedBy.value].OnLine?
  }

  // What every read keeps, for monitors registered when the output was `base`.
  ghost predicate Accounted(q: Qemu, base: seq<byte>) {
    && q.output == DecodeUtf8(q.outbytes)
    && q.outbytes == base + AllRead(q.history)
    && OnlyWatchersRaised(q)
    && forall k :: 0 <= k < |q.monitors| ==>
         Honest(q.monitors[k]) && Heard(q.monitors[k]) == ReachedBy(q.history, k)
  }

  // Monitors that have just been registered are accounted for, with all output so far
  // as the base.
  lemma RegisteredIsAccounted(q: Qemu)
    requires q.history == [] && q.output == DecodeUtf8(q.outbytes)
    requires forall k :: 0 <= k < |q.monitors| ==>
      match q.monitors[k]
      case Save(written) => written == []
      case OnLine(_, state) => state == NOTHING_HEARD
    ensures Accounted(q, q.outbytes) && NeverRaised(q.history)
  {
    assert q.outbytes + [] == q.outbytes;
  }

  ghost predicate SameKind(a: Monitor, b: Monitor) {
    a.OnLine? == b.OnLine? && (a.OnLine? ==> a.watch == b.watch)
  }

  lemma ReadKeepsKinds(q: Qemu, chunk: seq<byte>)
    ensures
      var q' := Read(q, chunk).0;
      && |q'.monitors| == |q.monitors|
      && (forall k :: 0 <= k < |q.monitors| ==> SameKind(q.monitors[k], q'.monitors[k]))
      && (OnlyWatchersRaised(q) ==> OnlyWatchersRaised(q'))
  {
    hide Deliver, HandleOutput, DecodeUtf8;
    DeliverReaches(q.monitors, 0, chunk);
    var q' := Read(q, chunk).0;
    var r := Reading(chunk, Deliver(q.monitors, 0, chunk).1);
    assert forall k :: 0 <= k < |q.monitors| ==> Delivered(q.monitors[k], q'.monitors[k], 0, r, k);
    assert r.raisedBy.Some? ==> Notify(q.monitors[r.raisedBy.value], chunk).1;
    forall i | 0 <= i < |q'.history|
      ensures i < |q.history| ==> q'.history[i] == q.history[i]
      ensures i == |q.history| ==> q'.history[i] == r
    {
    }
  }

  lemma ReadKeepsAccounted(q: Qemu, base: seq<byte>, chunk: seq<byte>)
    requires Accounted(q, base)
    ensures Accounted(Read(q, chunk).0, base)
  {
    hide Deliver, Notify, Honest, Heard, DecodeUtf8;
    var q' := Read(q, chunk).0;
    var r := q'.history[|q.history|];
    assert q'.history[..|q.history|] == q.history;
    AppendAssociative(base, AllRead(q.history), chunk);
    DeliverReaches(q.monitors, 0, chunk);
    ReadKeepsKinds(q, chunk);
    forall k | 0 <= k < |q'.monitors|
      ensures Honest(q'.monitors[k]) && Heard(q'.monitors[k]) == ReachedBy(q'.history, k)
    {
      assert Delivered(q.monitors[k], q'.monitors[k], 0, r, k);
      if r.Reached(k) {
        NotifyHears(q.monitors[k], chunk);
      } else {
        assert ReachedBy(q.history, k) + [] == ReachedBy(q.history, k);
      }
    }
  }

  function Missed(history: seq<Reading>, k: nat): nat {
    if history == [] then 0
    else
      var last := history[|history| - 1];
      Missed(history[..|history| - 1], k) + if last.Reached(k) then 0 else |last.chunk|
  }

  lemma {:induction false} ReachedPlusMissed(history: seq<Reading>, k: nat)
    ensures |ReachedBy(history, k)| + Missed(history, k) == |AllRead(history)|
    ensures Missed(history, k) == 0 ==> ReachedBy(history, k) == AllRead(history)
    ensures Missed(history, k) == 0 <==>
      forall i :: 0 <= i < |history| && history[i].chunk != [] ==> history[i].Reached(k)
  {
    if history != [] {
      var rest := history[..|history| - 1];
      ReachedPlusMissed(rest, k);
      assert forall i :: 0 <= i < |rest| ==> history[i] == rest[i];
    }
  }

  // A monitor has heard every byte since its registration exactly when no monitor
  // registered before it raised on a chunk with bytes in it.
  lemma HearsEverythingIff(q: Qemu, base: seq<byte>, k: nat)
    requires Accounted(q, base) && k < |q.monitors|
    ensures base + Heard(q.monitors[k]) == q.outbytes <==>
      forall i :: 0 <= i < |q.history| && q.history[i].chunk != [] ==> q.history[i].Reached(k)
  {
    ReachedPlusMissed(q.history, k);
    if base + Heard(q.monitors[k]) == q.outbytes {
      assert |Heard(q.monitors[k])| == |AllRead(q.history)|;
    }
  }

  // So a log registered before every watcher is a full copy of the output.
  lemma LogBeforeWatchersIsComplete(q: Qemu, base: seq<byte>, k: nat)
    requires Accounted(q, base) && k < |q.monitors|
    requires forall j :: 0 <= j < k ==> q.monitors[j].Save?
    ensures base + Heard(q.monitors[k]) == q.outbytes
  {
    hide Heard, Honest, AllRead, ReachedBy, DecodeUtf8;
    HearsEverythingIff(q, base, k);
  }

  // ---------- closing ----------

  // A read at the end of the stream that no monitor's exception ended.
  predicate EndOfFile(r: Reading) {
    r.chunk == [] && r.raisedBy.None?
  }

  // The process has been waited for exactly when such a read has happened.
  ghost predicate ClosedAtEnd(q: Qemu) {
    q.open <==> forall i :: 0 <= i < |q.history| ==> !EndOfFile(q.history[i])
  }

  lemma ReadKeepsClosedAtEnd(q: Qemu, chunk: seq<byte>)
    requires ClosedAtEnd(q)
    ensures ClosedAtEnd(Read(q, chunk).0)
  {
    hide Deliver, DecodeUtf8;
    var q' := Read(q, chunk).0;
    assert forall i :: 0 <= i < |q.history| ==> q'.history[i] == q.history[i];
    assert q'.history[|q.history|].chunk == chunk;
  }

  // ---------- stopping on a line ----------

  predicate NeverRaised(history: seq<Reading>) {
    forall i :: 0 <= i < |history| ==> history[i].raisedBy.None?
  }

  // The line on which monitor k raised during its last read.
  function StopLine(m: Monitor): seq<byte>
    requires m.OnLine? && m.state.consumed != []
  {
    m.state.consumed[|m.state.consumed| - 1]
  }

  // Only a line watcher raises; the line it raised on matches its pattern.
  lemma RaiserMatched(q: Qemu, chunk: seq<byte>, k: nat)
    requires Deliver(q.monitors, 0, chunk).1 == Some(k)
    ensures
      var ms := Read(q, chunk).0.monitors;
      && k < |q.monitors| == |ms| && q.monitors[k].OnLine?
      && ms[k].OnLine? && ms[k].watch == q.monitors[k].watch
      && ms[k].state.consumed != []
      && ms[k].watch.matches(DecodeUtf8(StopLine(ms[k])))
  {
    hide DecodeUtf8, Deliver;
    DeliverReaches(q.monitors, 0, chunk);
    var m := q.monitors[k];
    assert Delivered(m, Read(q, chunk).0.monitors[k], 0, Reading(chunk, Some(k)), k);
    RaisingLineMatched(m.watch, m.state.(buf := m.state.buf + chunk));
  }

  // The line of the whole output that the monitor stopped on, if it was registered when
  // the output was `base`: of the line then under way it has heard only the rest.
  function TrueLine(base: seq<byte>, m: Monitor): seq<byte>
    requires m.OnLine? && m.state.consumed != []
  {
    (if |m.state.consumed| == 1 then Tail(base) else []) + StopLine(m)
  }

  // The first stop of a run is caused by a true line of the output.
  lemma FirstStopSawTrueLine(q: Qemu, base: seq<byte>, chunk: seq<byte>, k: nat)
    requires Accounted(q, base) && NeverRaised(q.history)
    requires Deliver(q.monitors, 0, chunk).1 == Some(k)
    ensures
      var q' := Read(q, chunk).0;
      && k < |q'.monitors| && q'.monitors[k].OnLine? && q'.monitors[k].state.consumed != []
      && TrueLine(base, q'.monitors[k]) in Completed(q'.outbytes)
      && StopLine(q'.monitors[k]) in Completed(AllRead(q'.history))
  {
    hide DecodeUtf8, Deliver, Completed, Tail, Faithful, TrueLine;
    RaiserMatched(q, chunk, k);
    ReadKeepsAccounted(q, base, chunk);
    var q' := Read(q, chunk).0;
    forall i | 0 <= i < |q'.history|
      ensures q'.history[i].Reached(k)
    {
      assert i < |q.history| ==> q'.history[i] == q.history[i];
    }
    ReachedPlusMissed(q'.history, k);
    StopLineInWhole(base, q'.monitors[k]);
  }

  lemma StopLineInWhole(base: seq<byte>, m: Monitor)
    requires m.OnLine? && Faithful(m.watch, m.state) && m.state.consumed != []
    ensures TrueLine(base, m) in Completed(base + Heard(m))
    ensures StopLine(m) in Completed(Heard(m))
  {
    hide Completed, Tail, Faithful;
    FaithfulCompleted(m.watch, m.state);
    CompletedAfter(base, Heard(m));
    var n := |m.state.consumed| - 1;
    var lines, before := Completed(Heard(m)), Completed(base);
    assert lines[n] == StopLine(m);
    var whole := before + ([Tail(base) + lines[0]] + lines[1..]);
    assert whole[|before| + n] == TrueLine(base, m);
  }

  // Every watcher raises at its first matching line and has not met one.
  ghost predicate AllUnstopped(q: Qemu) {
    forall k :: 0 <= k < |q.monitors| && q.monitors[k].OnLine? ==>
      Unstopped(q.monitors[k].watch, q.monitors[k].state)
  }

  lemma QuietReadKeepsUnstopped(q: Qemu, base: seq<byte>, chunk: seq<byte>)
    requires Accounted(q, base) && AllUnstopped(q)
    requires !Read(q, chunk).1
    ensures AllUnstopped(Read(q, chunk).0)
  {
    hide Deliver, DecodeUtf8, Unstopped, Faithful, HandleOutput;
    DeliverReaches(q.monitors, 0, chunk);
    var q' := Read(q, chunk).0;
    var raisedBy := Deliver(q.monitors, 0, chunk).1;
    assert raisedBy == None;
    forall k | 0 <= k < |q'.monitors| && q'.monitors[k].OnLine?
      ensures Unstopped(q'.monitors[k].watch, q'.monitors[k].state)
    {
      var m := q.monitors[k];
      assert Delivered(m, q'.monitors[k], 0, Reading(chunk, raisedBy), k);
      QuietCallKeepsUnstopped(m.watch, m.state, chunk);
    }
  }

  // After a quiet history no watcher has heard a matching line, and all heard everything.
  lemma QuietHistoryHadNoMatch(q: Qemu, base: seq<byte>, k: nat)
    requires Accounted(q, base) && AllUnstopped(q) && NeverRaised(q.history)
    requires k < |q.monitors| && q.monitors[k].OnLine?
    ensures forall l :: l in Completed(AllRead(q.history)) ==> !q.monitors[k].watch.matches(DecodeUtf8(l))
  {
    hide DecodeUtf8, Completed, Unstopped, Faithful, HeardLines, AllRead, ReachedBy;
    ReachedPlusMissed(q.history, k);
    UnstoppedHeardNoMatch(q.monitors[k].watch, q.monitors[k].state);
  }

  // A completed line of the bytes is a line of the decoded text exactly when its own
  // text holds no other line break.
  lemma CompletedLineInText(bytes: seq<byte>, l: seq<byte>)
    requires l in Completed(bytes)
    ensures DecodeUtf8(l) in SplitLines(DecodeUtf8(bytes)) <==> OneLine(DecodeUtf8(l))
  {
    hide DecodeUtf8, SplitLines, OneLine;
    var u, v := TextAroundLine(bytes, l);
    CompletedLineIsSplit(u, DecodeUtf8(l), v);
  }

  // Lines of printable ASCII hold no other line break.
  predicate PrintableBytes(s: seq<byte>) {
    forall i :: 0 <= i < |s| ==> 32 <= s[i] <= 126 || s[i] == NEWLINE
  }

  lemma PrintableLine(bytes: seq<byte>, l: seq<byte>)
    requires PrintableBytes(bytes) && l in Completed(bytes)
    ensures OneLine(DecodeUtf8(l))
  {
    hide Completed, Unlines, OneLine;
    var before, after := BytesAroundLine(bytes, l);
    assert forall i :: 0 <= i < |l| ==> bytes[|Unlines(before)| + i] == l[i];
    LineIsNewlineFree(bytes, l);
    DecodePrintable(l);
    PrintableIsOneLine(DecodeUtf8(l));
  }

  lemma LineIsNewlineFree(bytes: seq<byte>, l: seq<byte>)
    requires l in Completed(bytes)
    ensures NewlineFree(l)
  {
  }

  lemma {:induction false} DecodePrintable(l: seq<byte>)
    requires forall i :: 0 <= i < |l| ==> 32 <= l[i] <= 126
    ensures |DecodeUtf8(l)| == |l| && forall i :: 0 <= i < |l| ==> DecodeUtf8(l)[i] == l[i] as char
    ensures Printable(DecodeUtf8(l))
  {
    if l != [] {
      DecodePrintable(l[1..]);
    }
  }

  // The decoded text stands around the decoded line: full lines before it and its
  // newline after it.
  lemma TextAroundLine(bytes: seq<byte>, l: seq<byte>) returns (u: string, v: string)
    requires l in Completed(bytes)
    ensures |u| == 0 || u[|u| - 1] == '\n'
    ensures DecodeUtf8(bytes) == u + DecodeUtf8(l) + "\n" + v
  {
    hide DecodeUtf8, Unlines;
    var before, after := BytesAroundLine(bytes, l);
    var rest := l + [NEWLINE] + after;
    DecodeUtf8Newline(l, after);
    u := DecodeAfterLines(before, rest);
    v := DecodeUtf8(after);
    AppendAssociative(u, DecodeUtf8(l) + "\n", v);
    AppendAssociative(u, DecodeUtf8(l), "\n");
  }

  lemma BytesAroundLine(bytes: seq<byte>, l: seq<byte>) returns (before: seq<seq<byte>>, after: seq<byte>)
    requires l in Completed(bytes)
    ensures bytes == Unlines(before) + (l + [NEWLINE] + after)
  {
    hide Unlines, Completed, Tail;
    var lines := Completed(bytes);
    var i :| 0 <= i < |lines| && lines[i] == l;
    before, after := lines[..i], Unlines(lines[i + 1..]) + Tail(bytes);
    UnlinesOfCompleted(bytes);
    UnlinesAround(lines, i);
  }

  lemma {:induction false} UnlinesAround(lines: seq<seq<byte>>, i: nat)
    requires i < |lines|
    ensures Unlines(lines) == Unlines(lines[..i]) + (lines[i] + [NEWLINE] + Unlines(lines[i + 1..]))
  {
    if i > 0 {
      UnlinesAround(lines[1..], i - 1);
      assert lines[..i][1..] == lines[1..][..i - 1];
      assert lines[1..][i..] == lines[i + 1..];
    }
  }

  lemma DecodeAfterLines(lines: seq<seq<byte>>, rest: seq<byte>) returns (u: string)
    ensures |u| == 0 || u[|u| - 1] == '\n'
    ensures DecodeUtf8(Unlines(lines) + rest) == u + DecodeUtf8(rest)
  {
    hide DecodeUtf8;
    if lines == [] {
      assert Unlines(lines) + rest == rest;
      u := "";
    } else {
      var init, last := lines[..|lines| - 1], lines[|lines| - 1];
      assert lines == init + [last];
      UnlinesSnoc(init, last);
      var start := Unlines(init) + last;
      assert Unlines(lines) + rest == start + [NEWLINE] + rest;
      DecodeUtf8Newline(start, rest);
      u := DecodeUtf8(start) + "\n";
    }
  }
}
