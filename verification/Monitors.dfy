// Callbacks on QEMU's output: log files and line watchers, and how one chunk of
// output is handed to all of them.
module Monitors {
  import opened Basics
  import opened Text
  import opened Lines

  // ---------- watching for lines ----------

  // The regular expression and the callback of call_on_line.  Whether the callback
  // raises may depend on everything it was called with before.
  datatype Watch = Watch(matches: string -> bool, raises: (seq<string>, string) -> bool)

  // A watcher: the unfinished text, and its history, the lines it has taken from the
  // text and the decoded lines its callback was called with.
  datatype LineState = LineState(buf: seq<byte>, consumed: seq<seq<byte>>, calls: seq<string>)

  // The loop of handle_output once the chunk has been appended to the buffer.  The
  // flag says that the callback raised.
  function Scan(w: Watch, st: LineState): (LineState, bool)
    decreases |st.buf|
  {
    var k := Find(st.buf, NEWLINE, 0);
    if k == |st.buf| then (st, false)
    else
      var line := st.buf[..k];
      var text := DecodeUtf8(line);
      var taken := LineState(st.buf[k + 1..], st.consumed + [line], st.calls);
      if !w.matches(text) then Scan(w, taken)
      else
        var called := taken.(calls := st.calls + [text]);
        if w.raises(st.calls, text) then (called, true) else Scan(w, called)
  }

  function HandleOutput(w: Watch, st: LineState, output: seq<byte>): (LineState, bool) {
    Scan(w, st.(buf := st.buf + output))
  }

  function Matching(w: Watch, lines: seq<seq<byte>>): seq<string> {
    if lines == [] then []
    else (if w.matches(DecodeUtf8(lines[0])) then [DecodeUtf8(lines[0])] else []) + Matching(w, lines[1..])
  }

  lemma {:induction false} MatchingSnoc(w: Watch, lines: seq<seq<byte>>, last: seq<byte>)
    ensures Matching(w, lines + [last]) ==
      Matching(w, lines) + if w.matches(DecodeUtf8(last)) then [DecodeUtf8(last)] else []
  {
    hide DecodeUtf8;
    if lines == [] {
      assert (lines + [last])[1..] == [];
    } else {
      assert (lines + [last])[1..] == lines[1..] + [last];
      MatchingSnoc(w, lines[1..], last);
    }
  }

  // Everything the watcher was given so far.
  function HeardLines(st: LineState): seq<byte> {
    Unlines(st.consumed) + st.buf
  }

  ghost predicate Faithful(w: Watch, st: LineState) {
    AllNewlineFree(st.consumed) && st.calls == Matching(w, st.consumed)
  }

  // Whether the callback raised at call number i.
  predicate RaisedAt(w: Watch, calls: seq<string>, i: nat)
    requires i < |calls|
  {
    w.raises(calls[..i], calls[i])
  }

  // One step of the loop keeps what was heard: the line moves from the buffer to the
  // consumed lines.
  lemma TakeLine(w: Watch, st: LineState, k: nat)
    requires Faithful(w, st) && k < |st.buf| && st.buf[k] == NEWLINE && NewlineFree(st.buf[..k])
    ensures
      var text := DecodeUtf8(st.buf[..k]);
      var calls := if w.matches(text) then st.calls + [text] else st.calls;
      var taken := LineState(st.buf[k + 1..], st.consumed + [st.buf[..k]], calls);
      Faithful(w, taken) && HeardLines(taken) == HeardLines(st)
  {
    hide DecodeUtf8, Unlines, Matching;
    TakeLineHears(st.consumed, st.buf, k);
    MatchingSnoc(w, st.consumed, st.buf[..k]);
    assert st.calls + [] == st.calls;
  }

  lemma TakeLineHears(consumed: seq<seq<byte>>, buf: seq<byte>, k: nat)
    requires k < |buf| && buf[k] == NEWLINE
    ensures Unlines(consumed + [buf[..k]]) + buf[k + 1..] == Unlines(consumed) + buf
  {
    hide Unlines;
    UnlinesSnoc(consumed, buf[..k]);
    AppendAssociative(Unlines(consumed), buf[..k], [NEWLINE]);
    AppendAssociative(Unlines(consumed), buf[..k] + [NEWLINE], buf[k + 1..]);
    assert buf == buf[..k] + [NEWLINE] + buf[k + 1..];
  }

  // What one call of handle_output does, in terms of everything heard: nothing is
  // lost or repeated, the callback has been called on exactly the matching lines
  // taken, in order, and unless it raised no completed line is left.
  lemma {:induction false} ScanIsFaithful(w: Watch, st: LineState)
    requires Faithful(w, st)
    ensures Faithful(w, Scan(w, st).0)
    ensures HeardLines(Scan(w, st).0) == HeardLines(st)
    ensures !Scan(w, st).1 ==> NewlineFree(Scan(w, st).0.buf)
    decreases |st.buf|
  {
    hide DecodeUtf8, Faithful, HeardLines;
    var k := Find(st.buf, NEWLINE, 0);
    if k < |st.buf| {
      TakeLine(w, st, k);
      var text := DecodeUtf8(st.buf[..k]);
      var taken := LineState(st.buf[k + 1..], st.consumed + [st.buf[..k]], st.calls);
      if !w.matches(text) {
        ScanIsFaithful(w, taken);
      } else if !w.raises(st.calls, text) {
        ScanIsFaithful(w, taken.(calls := st.calls + [text]));
      }
    }
  }

  // Going from one history of calls to a longer one, every new call returned, except
  // that the last one raised if `raised` says so.
  ghost predicate CallsMade(w: Watch, before: seq<string>, after: seq<string>, raised: bool) {
    && before <= after
    && (raised ==> |before| < |after|)
    && forall i :: |before| <= i < |after| ==> (RaisedAt(w, after, i) <==> raised && i == |after| - 1)
  }

  lemma NoCallsMade(w: Watch, calls: seq<string>)
    ensures CallsMade(w, calls, calls, false)
  {
  }

  lemma CallsMadeFirst(w: Watch, before: seq<string>, text: string, after: seq<string>, raised: bool)
    requires if w.raises(before, text) then after == before + [text] && raised
             else CallsMade(w, before + [text], after, raised)
    ensures CallsMade(w, before, after, raised)
  {
    assert (before + [text])[..|before|] == before;
    assert after[..|before|] == before;
    assert after[|before|] == text;
  }

  // The loop is left by an exception at the first call that raises, and at no other.
  lemma {:induction false} ScanStopsAtFirstRaise(w: Watch, st: LineState)
    ensures CallsMade(w, st.calls, Scan(w, st).0.calls, Scan(w, st).1)
    decreases |st.buf|
  {
    hide DecodeUtf8, CallsMade, Find;
    var k := Find(st.buf, NEWLINE, 0);
    if k == |st.buf| {
      NoCallsMade(w, st.calls);
    } else {
      var text := DecodeUtf8(st.buf[..k]);
      var taken := LineState(st.buf[k + 1..], st.consumed + [st.buf[..k]], st.calls);
      if !w.matches(text) {
        ScanStopsAtFirstRaise(w, taken);
      } else {
        var called := taken.(calls := st.calls + [text]);
        if !w.raises(st.calls, text) {
          ScanStopsAtFirstRaise(w, called);
        }
        CallsMadeFirst(w, st.calls, text, Scan(w, st).0.calls, Scan(w, st).1);
      }
    }
  }

  // The last call was made for the line taken last, and that line matched.
  ghost predicate LastCallMatched(w: Watch, st: LineState) {
    && |st.calls| > 0 && |st.consumed| > 0
    && st.calls[|st.calls| - 1] == DecodeUtf8(st.consumed[|st.consumed| - 1])
    && w.matches(st.calls[|st.calls| - 1])
  }

  lemma {:induction false} RaisingLineMatched(w: Watch, st: LineState)
    requires Scan(w, st).1
    ensures LastCallMatched(w, Scan(w, st).0)
    decreases |st.buf|
  {
    hide DecodeUtf8, Find, LastCallMatched;
    var k := Find(st.buf, NEWLINE, 0);
    var text := DecodeUtf8(st.buf[..k]);
    var taken := LineState(st.buf[k + 1..], st.consumed + [st.buf[..k]], st.calls);
    if !w.matches(text) {
      RaisingLineMatched(w, taken);
    } else {
      var called := taken.(calls := st.calls + [text]);
      if w.raises(st.calls, text) {
        CalledForLastLine(w, st.consumed, st.buf[..k], called);
      } else {
        RaisingLineMatched(w, called);
      }
    }
  }

  lemma CalledForLastLine(w: Watch, consumed: seq<seq<byte>>, line: seq<byte>, st: LineState)
    requires st.consumed == consumed + [line] && st.calls != []
    requires st.calls[|st.calls| - 1] == DecodeUtf8(line) && w.matches(DecodeUtf8(line))
    ensures LastCallMatched(w, st)
  {
    hide DecodeUtf8;
  }

  // stop_on_line's callback always raises.
  function StopOnLine(matches: string -> bool): Watch {
    Watch(matches, (_, _) => true)
  }

  function FirstMatch(matches: string -> bool, lines: seq<seq<byte>>): (n: nat)
    ensures n <= |lines|
    ensures forall i :: 0 <= i < n ==> !matches(DecodeUtf8(lines[i]))
    ensures n < |lines| ==> matches(DecodeUtf8(lines[n]))
  {
    if lines == [] || matches(DecodeUtf8(lines[0])) then 0 else FirstMatch(matches, lines[1..]) + 1
  }

  // Its watcher stops the run exactly when some completed line it holds matches, and
  // then it has taken the lines up to and including the first that does.
  lemma {:induction false} StopOnLineStopsAtFirstMatch(matches: string -> bool, st: LineState)
    ensures
      var lines := Completed(st.buf);
      var n := FirstMatch(matches, lines);
      var (after, raised) := Scan(StopOnLine(matches), st);
      && (raised <==> n < |lines|)
      && after.consumed == st.consumed + (if raised then lines[..n + 1] else lines)
      && after.calls == st.calls + if raised then [DecodeUtf8(lines[n])] else []
    decreases |st.buf|
  {
    hide DecodeUtf8, Completed, Scan, FirstMatch;
    var lines := Completed(st.buf);
    if lines == [] {
      ScanNothing(matches, st);
    } else {
      var line, taken := ScanFirst(matches, st);
      FirstMatchCons(matches, line, Completed(taken.buf));
      if !matches(DecodeUtf8(line)) {
        StopOnLineStopsAtFirstMatch(matches, taken);
        PrefixGrows(st.consumed, line, Completed(taken.buf), FirstMatch(matches, Completed(taken.buf)));
      } else {
        assert lines[..1] == [line];
      }
    }
  }

  lemma ScanNothing(matches: string -> bool, st: LineState)
    requires Completed(st.buf) == []
    ensures Scan(StopOnLine(matches), st) == (st, false) && FirstMatch(matches, []) == 0
  {
  }

  lemma ScanFirst(matches: string -> bool, st: LineState) returns (line: seq<byte>, taken: LineState)
    requires Completed(st.buf) != []
    ensures |taken.buf| < |st.buf|
    ensures Completed(st.buf) == [line] + Completed(taken.buf)
    ensures taken.consumed == st.consumed + [line] && taken.calls == st.calls
    ensures Scan(StopOnLine(matches), st) ==
      if matches(DecodeUtf8(line)) then (taken.(calls := st.calls + [DecodeUtf8(line)]), true)
      else Scan(StopOnLine(matches), taken)
  {
    hide DecodeUtf8;
    var k := Find(st.buf, NEWLINE, 0);
    line := st.buf[..k];
    taken := LineState(st.buf[k + 1..], st.consumed + [line], st.calls);
  }

  lemma FirstMatchCons(matches: string -> bool, line: seq<byte>, lines: seq<seq<byte>>)
    ensures FirstMatch(matches, [line] + lines) ==
      if matches(DecodeUtf8(line)) then 0 else FirstMatch(matches, lines) + 1
  {
    assert ([line] + lines)[1..] == lines;
  }

  lemma PrefixGrows<T>(before: seq<T>, x: T, rest: seq<T>, n: nat)
    requires n <= |rest|
    ensures before + [x] + rest == before + ([x] + rest)
    ensures n < |rest| ==> before + [x] + rest[..n + 1] == before + ([x] + rest)[..n + 2]
  {
  }

  // A watcher whose callback always raises and has never been called, and that holds no
  // completed line: nothing it heard can have matched.
  ghost predicate Unstopped(w: Watch, st: LineState) {
    && (forall calls, text :: w.raises(calls, text))
    && st.calls == [] && NewlineFree(st.buf)
  }

  lemma QuietCallKeepsUnstopped(w: Watch, st: LineState, output: seq<byte>)
    requires Unstopped(w, st) && Faithful(w, st)
    requires !HandleOutput(w, st, output).1
    ensures Unstopped(w, HandleOutput(w, st, output).0)
  {
    hide Scan, Faithful;
    var given := st.(buf := st.buf + output);
    ScanStopsAtFirstRaise(w, given);
    HandleOutputHears(w, st, output);
    var calls := Scan(w, given).0.calls;
    assert |calls| > 0 ==> RaisedAt(w, calls, 0);
  }

  lemma UnstoppedHeardNoMatch(w: Watch, st: LineState)
    requires Unstopped(w, st) && Faithful(w, st)
    ensures forall l :: l in Completed(HeardLines(st)) ==> !w.matches(DecodeUtf8(l))
  {
    hide DecodeUtf8, Completed;
    FaithfulCompleted(w, st);
    NoneMatching(w, st.consumed);
  }

  lemma {:induction false} NoneMatching(w: Watch, lines: seq<seq<byte>>)
    requires Matching(w, lines) == []
    ensures forall l :: l in lines ==> !w.matches(DecodeUtf8(l))
  {
    hide DecodeUtf8;
    if lines != [] {
      NoneMatching(w, lines[1..]);
      assert forall l :: l in lines ==> l == lines[0] || l in lines[1..];
    }
  }

  // ---------- whole runs of a watcher ----------

  function FeedAll(w: Watch, st: LineState, chunks: seq<seq<byte>>): LineState
    decreases |chunks|
  {
    if chunks == [] then st else FeedAll(w, HandleOutput(w, st, chunks[0]).0, chunks[1..])
  }

  const NOTHING_HEARD: LineState := LineState([], [], [])

  lemma HandleOutputHears(w: Watch, st: LineState, output: seq<byte>)
    requires Faithful(w, st)
    ensures
      var (after, raised) := HandleOutput(w, st, output);
      && Faithful(w, after)
      && HeardLines(after) == HeardLines(st) + output
      && (!raised ==> NewlineFree(after.buf))
  {
    ScanIsFaithful(w, st.(buf := st.buf + output));
    AppendAssociative(Unlines(st.consumed), st.buf, output);
  }

  lemma {:induction false} FeedAllIsFaithful(w: Watch, st: LineState, chunks: seq<seq<byte>>)
    requires Faithful(w, st)
    ensures Faithful(w, FeedAll(w, st, chunks))
    ensures HeardLines(FeedAll(w, st, chunks)) == HeardLines(st) + Concat(chunks)
    decreases |chunks|
  {
    hide Scan, Faithful, HeardLines;
    if chunks != [] {
      HandleOutputHears(w, st, chunks[0]);
      FeedAllIsFaithful(w, HandleOutput(w, st, chunks[0]).0, chunks[1..]);
      AppendAssociative(HeardLines(st), chunks[0], Concat(chunks[1..]));
    }
  }

  // A faithful watcher's history is the history of the stream, however it was cut.
  lemma FaithfulCompleted(w: Watch, st: LineState)
    requires Faithful(w, st)
    ensures Completed(HeardLines(st)) == st.consumed + Completed(st.buf)
    ensures Tail(HeardLines(st)) == Tail(st.buf)
    ensures NewlineFree(st.buf) ==>
      && st.consumed == Completed(HeardLines(st))
      && st.buf == Tail(HeardLines(st))
      && st.calls == Matching(w, Completed(HeardLines(st)))
  {
    hide Matching;
    CompletedUnique(st.consumed, st.buf);
    if NewlineFree(st.buf) {
      QuietText(st.buf);
      assert st.consumed + [] == st.consumed;
    }
  }

  // For every chunking of a stream, with any number of raising callbacks on the way:
  // the lines taken so far, followed by those still in the buffer, are the lines of
  // the stream, and the callback was called on exactly the matching lines taken.
  lemma LinesIgnoreChunking(w: Watch, chunks: seq<seq<byte>>)
    ensures
      var st := FeedAll(w, NOTHING_HEARD, chunks);
      && st.consumed + Completed(st.buf) == Completed(Concat(chunks))
      && Tail(st.buf) == Tail(Concat(chunks))
      && st.calls == Matching(w, st.consumed)
  {
    hide Completed, Tail, Scan, DecodeUtf8;
    FeedAllIsFaithful(w, NOTHING_HEARD, chunks);
    var st := FeedAll(w, NOTHING_HEARD, chunks);
    FaithfulCompleted(w, st);
    assert HeardLines(NOTHING_HEARD) + Concat(chunks) == Concat(chunks);
  }

  // If the last chunk did not raise, the callbacks are those of one single chunk and
  // the buffer is the text after the last newline of the stream.
  lemma QuietRunCallsAllMatching(w: Watch, chunks: seq<seq<byte>>, last: seq<byte>)
    requires !HandleOutput(w, FeedAll(w, NOTHING_HEARD, chunks), last).1
    ensures
      var st := HandleOutput(w, FeedAll(w, NOTHING_HEARD, chunks), last).0;
      var stream := Concat(chunks + [last]);
      && st.calls == Matching(w, Completed(stream))
      && st.consumed == Completed(stream)
      && st.buf == Tail(stream)
  {
    hide Completed, Tail, Scan, DecodeUtf8;
    FeedAllIsFaithful(w, NOTHING_HEARD, chunks);
    var st := FeedAll(w, NOTHING_HEARD, chunks);
    HandleOutputHears(w, st, last);
    FaithfulCompleted(w, HandleOutput(w, st, last).0);
    ConcatSnoc(chunks, last);
    assert HeardLines(NOTHING_HEARD) + Concat(chunks) == Concat(chunks);
  }
}
