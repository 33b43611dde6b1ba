# Verification of the lab grading library and of two async programs

This Dafny project models three programs of the repository and proves properties of
the models over all inputs, chunkings, schedules and runs.

* The grading library (`templates/lab4/gradelib.py`): the incremental framer of the
  GDB Remote Serial Protocol, the line monitors on QEMU's output and their stops, the
  reactor loop that reads both, `assert_lines_match` with its failure excerpt, and the
  test runner with its scores.
* The message pump (`solutions/gae/async/main.cpp`): a ring of twenty slots without a
  check for a full ring.
* The relay (`solutions/mal/async/async.c` and `solutions/lub/async/async.c`): two
  processes over two named pipes, in every interleaving.

What the source updates in place is a class here (`GdbClient`, `LineMonitor`,
`QemuController`, `Runner`, `TestSuite`, `Pump`, `RelayLoop`) whose methods keep the
source's loops. Each method states its whole new state as a function of the old one,
and the theorems are about those functions: they are the state machines in
`Gdb.dfy`, `Monitors.dfy`, `Output.dfy`, `Reactor.dfy`, `Grading.dfy`,
`MessagePump.dfy` and `Relay.dfy`. Histories such as `received`, `consumed` or
`trace` exist for the proofs only.

| file | content |
|---|---|
| `Basics.dfy`, `Sorting.dfy` | shared values and `sorted` |
| `Text.dfy`, `Lines.dfy` | ASCII and UTF-8 decoding, `splitlines`, newline-terminated lines |
| `Framing.dfy`, `Commands.dfy`, `Gdb.dfy` | the framing pattern, frames that are sent, the GDB client |
| `Monitors.dfy`, `Output.dfy`, `Reactor.dfy`, `Runner.dfy`, `Sessions.dfy` | line watchers, fan-out, the reactor loop, the objects, whole runs |
| `LinesMatch.dfy`, `Excerpts.dfy` | `assert_lines_match`, its excerpt, `assert_equal` |
| `Grading.dfy`, `TestRunner.dfy`, `Outcomes.dfy` | the test runner and its score |
| `MessagePump.dfy` | the ring |
| `Relay.dfy`, `RelayProcess.dfy` | the relay |

Where a promise does not hold of the code, the exact condition is proved:

* A stop on a line means that `match` finds the line only if the line holds no line
  break other than its newline, because `splitlines` breaks at more characters than
  the monitor does (`Reactor.StopMeansMatch`, `Reactor.MatchForEveryPatternIff`,
  `Reactor.StopWithoutMatch`). On the first line it hears, a monitor sees only a part of
  the line unless it was registered at a line boundary
  (`Lines.ListenerSeesTrueLinesIff`, `Lines.CompletedAfter`,
  `Reactor.MidLineStopWithoutMatch`).
* For non-negative points, TOTAL is that of the tests whose bodies returned only if no
  finished test worth points raised an AssertionError with an empty text, as a bare
  `assert` does (`Grading.TotalIsReturnedIff`). The failures of `assert_lines_match`
  and `assert_equal` always count (`Outcomes.MatchTest`, `Outcomes.EqualTest`).
* What the pump has sent and what its ring holds are all messages stored, in order, only
  if there have never been twenty unsent messages (`MessagePump.RunRefinesQueueIff`,
  and `MessagePump.RunPump` in terms of the messages that come in);
  the twentieth empties the ring (`MessagePump.TwentyStoresAreLost`).
* The relay needs two different pipes and programs of opposite roles
  (`Relay.ShowsOnlyTheOtherSideIff`, `Relay.DeliversIff`); then every byte can still
  arrive, whatever has happened so far (`Relay.EverythingCanArrive`).

`re.match` and the callbacks of `call_on_line` are arbitrary functions: a pattern may
match any set of lines, and a callback may raise depending on everything it was called
with before. The framing pattern is a concrete regular expression. What `select`,
`os.read`, `recv`, `epoll_wait` and `read` deliver is an arbitrary script of results,
as is the outcome of each test body.

## Model

| member | source | states |
|---|---|---|
| `Framing.SearchIsLeftmostMatch` | templates/lab4/gradelib.py:334 | the search succeeds iff the pattern, given as a regular expression with a meaning of its own, accepts some part of the text; it then reports the leftmost such part, the only one at its start |
| `Regexps.AcceptsStarClass` | templates/lab4/gradelib.py:334 | the starred class accepts exactly the texts made of its characters |
| `Framing.AcceptsPattern` | templates/lab4/gradelib.py:334 | a part is accepted iff it is `$`, then no `#` up to a `#`, then two ASCII alphanumerics |
| `Framing.SearchStable` | templates/lab4/gradelib.py:331-334 | a leftmost match, once present, is unchanged by appending text |
| `Framing.PacketsAppend` | templates/lab4/gradelib.py:331-338 | the packets of a text cut in two are those of the first part followed by those of its leftover and the second part |
| `Framing.PopConserves` | templates/lab4/gradelib.py:333-342 | leaving the receive loop, early or not, loses and repeats no packet, and each pop shortens the buffer by at least four |
| `Framing.PopStopsIffStopReply` | templates/lab4/gradelib.py:333-342 | the loop raises iff the buffer held a T05 packet; otherwise all packets are popped and no frame is left |
| `Gdb.ReadKeepsConsistent` | templates/lab4/gradelib.py:322-342 | every read keeps: popped packets and those still in the buffer are the packets of everything received, with one stop per T05 packet popped |
| `Gdb.FramingIgnoresChunking` | templates/lab4/gradelib.py:322-342 | for every chunking of a stream and any stops on the way, popped and still extractable packets are the packets of the stream |
| `Gdb.UnstoppedRunPopsAll` | templates/lab4/gradelib.py:322-342 | a run without stops ends with the packets and buffer of one single read of the whole stream |
| `Gdb.ReadClosesAndStopsIff` | templates/lab4/gradelib.py:322-342 | a read closes the client iff it delivers nothing, and raises iff a complete packet that begins with T, 0, 5 is in what it has then |
| `Gdb.GdbClient.HandleRead` | templates/lab4/gradelib.py:322-342 | one read: the socket is closed iff no data came; otherwise the buffer, the packets popped and the stop are those of the specification; the invariant is kept |
| `Gdb.GdbClient.constructor` | templates/lab4/gradelib.py:316 | an open client with an empty buffer satisfies the invariant |
| `Commands.HexRoundTrip` | templates/lab4/gradelib.py:359 | hexadecimal digits of any number read back as the number |
| `Commands.Hex2IsTrailer` | templates/lab4/gradelib.py:345 | any checksum prints as exactly two digits that the pattern accepts and that denote it |
| `Commands.ChecksumAdds` | templates/lab4/gradelib.py:345 | the checksum is the sum of the characters modulo 256 |
| `Commands.PacketIsFrame` | templates/lab4/gradelib.py:345 | a frame is `$`, the command, `#`, and the sum of the characters modulo 256 in two hexadecimal digits, the higher one first |
| `Commands.AcceptedAppend` | templates/lab4/gradelib.py:334-346 | what a peer reads that drops frames with a wrong checksum does not depend on how the text is cut |
| `Commands.RoundTrip` | templates/lab4/gradelib.py:334-363 | any list of commands without `#`, framed, with `$`-free noise before, between and after, is read back exactly, also by a peer that drops frames with a wrong checksum, and leaves only the last noise |
| `Commands.ReadBackIff` | templates/lab4/gradelib.py:344-346 | any stream of framed commands with `$`-free noise is read back, with or without checking of checksums, iff no command holds a `#` |
| `Gdb.BreakpointReadBack` | templates/lab4/gradelib.py:358-359 | a breakpoint command reads back as its three fields: Z1, the address, for every integer, and 1 |
| `Gdb.GdbClient.Send` | templates/lab4/gradelib.py:344-346 | a command with a character that is not ASCII raises and sends nothing; otherwise exactly its frame is sent, with its checksum, and a peer that checks it reads exactly one more command if it holds no `#` |
| `Gdb.GdbClient.SendBreak` | templates/lab4/gradelib.py:348-349 | the byte 3 is sent and the peer's commands do not change |
| `Gdb.GdbClient.Cont` | templates/lab4/gradelib.py:355-356 | the bytes `$c#63` are sent; the peer reads the command `c` |
| `Gdb.GdbClient.Breakpoint` | templates/lab4/gradelib.py:358-359 | the peer reads one more command, a breakpoint of kind Z1 and size 1 at the address |
| `Gdb.GdbClient.Kill` | templates/lab4/gradelib.py:361-363 | the byte 3 and then `$k#6b` are sent; the peer reads `k` |
| `Text.DecodeAsciiAppend` | templates/lab4/gradelib.py:324 | ASCII decoding with replacement does not depend on chunking |
| `Text.AsciiRoundTrip` | templates/lab4/gradelib.py:346 | ASCII text survives encoding and decoding |
| `Text.Utf8RoundTrip` | templates/lab4/gradelib.py:292 | well-formed UTF-8 is decoded without loss |
| `Text.DecodeFirstIsMaximal` | templates/lab4/gradelib.py:292 | the character whose UTF-8 form stands first is decoded; if there is none, U+FFFD stands for the longest part that begins some character's form, or for one byte |
| `Text.DecodeUtf8Newline` | templates/lab4/gradelib.py:292 | decoding a text equals decoding the parts around any newline byte, malformed sequences included |
| `Text.SplitLinesAppend` | templates/lab4/gradelib.py:150 | a text that ends in a newline has finished all of its lines |
| `Text.SplitLinesEquations` | templates/lab4/gradelib.py:150 | the three equations that determine splitlines, with `\r\n` as one break |
| `Text.BreakCodePoints` | templates/lab4/gradelib.py:150 | a line break is one of ten code points and no other character |
| `Text.PrintableLinesAreSplit` | templates/lab4/gradelib.py:150 | lines of printable ASCII, each ended by a newline, are split into exactly these lines, with any text after the last newline as one more |
| `Text.CompletedLineIsSplit` | templates/lab4/gradelib.py:150 | a newline-terminated line is among splitlines' lines iff it holds no other line break |
| `Lines.UnlinesOfCompleted` | templates/lab4/gradelib.py:531-533 | cutting at newlines loses nothing |
| `Lines.CompletedUnique` | templates/lab4/gradelib.py:531-533 | newline-free lines that precede a rest are the first completed lines of the whole, so the cut is unique |
| `Lines.CompletedAppend` | templates/lab4/gradelib.py:531-533 | later bytes never change a completed line |
| `Lines.CompletedAfter` | templates/lab4/gradelib.py:528-533 | a listener that starts after some output first completes the line then under way, and hears true lines from then on |
| `Lines.ListenerSeesTrueLinesIff` | templates/lab4/gradelib.py:528-537 | a monitor sees only true lines of the output, whatever follows, iff it was registered at a line boundary |
| `Monitors.ScanIsFaithful` | templates/lab4/gradelib.py:530-536 | one call keeps: lines taken plus buffer are everything heard, and the callback was called on exactly the matching lines taken, in order; without an exception no completed line is left |
| `Monitors.ScanStopsAtFirstRaise` | templates/lab4/gradelib.py:532-536 | the loop is left by an exception at the first raising call and no other |
| `Monitors.RaisingLineMatched` | templates/lab4/gradelib.py:534-536 | the raising call was made for the line taken last, and that line matched |
| `Monitors.StopOnLineStopsAtFirstMatch` | templates/lab4/gradelib.py:540-546 | a stop_on_line watcher raises iff a completed line it holds matches, having taken the lines up to the first such |
| `Monitors.LinesIgnoreChunking` | templates/lab4/gradelib.py:528-538 | for every chunking and any raising callbacks: lines taken, then those in the buffer, are the lines of the stream, and the calls are the matching lines taken |
| `Monitors.QuietRunCallsAllMatching` | templates/lab4/gradelib.py:528-538 | after a chunk that did not raise, the calls are exactly the matching lines of the stream and the buffer is the text after its last newline |
| `Runner.LineMonitor.HandleOutput` | templates/lab4/gradelib.py:530-536 | the loop over the buffer, tied to the specification of one call |
| `Runner.LineMonitor.constructor` | templates/lab4/gradelib.py:529 | a new watcher has heard nothing |
| `Runner.LogFile.Write` | templates/lab4/gradelib.py:494 | the file is extended by the chunk |
| `Output.DeliverReaches` | templates/lab4/gradelib.py:293-294 | a chunk reaches the monitors in order up to and including the first that raises, and no other |
| `Output.ReadKeepsAccounted` | templates/lab4/gradelib.py:289-297 | every read keeps: output is the decoding of all bytes, and each monitor has heard exactly the chunks that reached it |
| `Output.HearsEverythingIff` | templates/lab4/gradelib.py:293-294 | a monitor has heard every byte since its registration iff no earlier monitor raised on a non-empty chunk |
| `Output.LogBeforeWatchersIsComplete` | templates/lab4/gradelib.py:487-508 | a log registered before every watcher equals all bytes since registration, stops or not |
| `Output.RegisteredIsAccounted` | templates/lab4/gradelib.py:400-414 | monitors just registered satisfy the invariant, with the output so far as base |
| `Output.RaiserMatched` | templates/lab4/gradelib.py:293-294 | only a line watcher raises, on a line its pattern matches |
| `Output.FirstStopSawTrueLine` | templates/lab4/gradelib.py:289-297 | the first stop of a run is due to a true completed line of the output, of which a monitor registered in the middle of the line heard the rest |
| `Output.CompletedLineInText` | templates/lab4/gradelib.py:475-479 | a completed line of the bytes is a line of the decoded output iff its text holds no other line break |
| `Output.PrintableLine` | templates/lab4/gradelib.py:475-479 | a completed line of printable ASCII holds no other line break |
| `Runner.QemuController.HandleRead` | templates/lab4/gradelib.py:289-302 | one read of QEMU: bytes, decoded output, callbacks, and closing iff the read found the end of file and no callback raised |
| `Runner.QemuController.CallMonitors` | templates/lab4/gradelib.py:293-294 | the callback loop, tied to its specification |
| `Runner.QemuController.ClearMonitors` | templates/lab4/gradelib.py:402 | forgetting the callbacks of the start-up phase |
| `Runner.QemuController.Register` | templates/lab4/gradelib.py:494 | one more callback, nothing else changed; callbacks stay distinct iff its object is new |
| `Runner.Runner.Save` | templates/lab4/gradelib.py:491-494 | the log file is emptied and registered last; earlier registrations of the same file show the emptied file, all else is unchanged, and callbacks stay distinct iff the file is new |
| `Runner.Runner.CallOnLine` | templates/lab4/gradelib.py:528-538 | a new watcher with an empty buffer is registered last, and nothing else changes |
| `Runner.Runner.SetBreakpoint` | templates/lab4/gradelib.py:507-522 | the stub reads one more command, for this address, and nothing that the loop reads changes |
| `Reactor.Length` | templates/lab4/gradelib.py:290-324 | a read of a ready descriptor gets at most 4096 bytes, and none iff the peer has closed |
| `Reactor.TurnKeeps` | templates/lab4/gradelib.py:455-461 | one pass keeps all invariants and both streams, and leaves a closed reactor alone |
| `Reactor.ReactConserves` | templates/lab4/gradelib.py:445-463 | in every run, wherever it ends: bytes accumulated and unread are the peer's stream, all invariants hold, a closed reactor is never read |
| `Reactor.ReactTerminates` | templates/lab4/gradelib.py:448-461 | if every select reports something, the loop ends within as many passes as there are bytes and open reactors |
| `Reactor.AllClosedReadEverything` | templates/lab4/gradelib.py:455-457 | when it ends with every reactor closed, QEMU's whole stream has been accumulated and decoded |
| `Reactor.QemuIsDrained` | templates/lab4/gradelib.py:455-461 | whatever happens to the stub: as many reports of QEMU as it has bytes, and one more, close it and accumulate its whole stream |
| `Reactor.GdbIsDrained` | templates/lab4/gradelib.py:455-461 | the same for the stub, if recv does not fail |
| `Reactor.GdbStaysOpen` | templates/lab4/gradelib.py:322-330 | the socket is closed only at the end of the stub's stream or by a failure of recv |
| `Reactor.FailureClosesStub` | templates/lab4/gradelib.py:325-330 | a failure of recv does close it, unless an exception has ended the loop |
| `Reactor.ReactKeepsClosedAtEnd` | templates/lab4/gradelib.py:295-302 | QEMU has been waited for iff some read found the end of file and no monitor raised on it |
| `Reactor.ReactAppend` | templates/lab4/gradelib.py:448-461 | a running loop goes on with further select results as if it had started there |
| `Reactor.DeadlineEndsLoop` | templates/lab4/gradelib.py:449-453 | a passed deadline ends a running loop where it is, and one that starts then, and nothing more is read |
| `Reactor.TimedOutAtDeadline` | templates/lab4/gradelib.py:449-457 | the loop ends by a timeout only at a passed deadline, in the state in which it was seen |
| `Reactor.StopSawMatchingLine` | templates/lab4/gradelib.py:289-297 | a monitor that stops a run ends it and has seen a true line of the output; what it heard of the line is a completed line since its registration and matched |
| `Reactor.StopMeansMatch` | templates/lab4/gradelib.py:412-427 | end to end: if a watcher for r stops the main loop on a line it heard in full, r.match on the final output finds that line, after any shutdown reads, if it holds no other line break; otherwise the line is not among those r.match looks at |
| `Reactor.PrintableStopMeansMatch` | templates/lab4/gradelib.py:412-427 | for output of printable ASCII and newlines, set up at a line boundary: whenever a watcher for r stops the main loop, r.match succeeds on the final output |
| `Reactor.StopWithoutMatch` | templates/lab4/gradelib.py:475-479 | such a line exists: a carriage return inside it makes a watcher stop and r.match fail |
| `Reactor.MidLineStopWithoutMatch` | templates/lab4/gradelib.py:528-538 | and a line whose beginning was printed before the watcher was set up: the rest matches and stops the run, and r.match fails |
| `Reactor.StoppedIff` | templates/lab4/gradelib.py:445-463 | the loop ends with TerminateTest iff a monitor raised during the last read of QEMU or one more T05 packet was popped, and never by both |
| `Reactor.StoppedByMonitorIff` | templates/lab4/gradelib.py:540-546 | with stop_on_line watchers a run is stopped by a monitor iff a line completed since their registration, among those read, matches the pattern of one of them: no stop is spurious and none is missed |
| `Reactor.MatchForEveryPatternIff` | templates/lab4/gradelib.py:475-479 | for a completed line, every pattern that matches it makes r.match succeed iff the line holds no other line break |
| `Reactor.ShutdownReadsOn` | templates/lab4/gradelib.py:419-427 | a shutdown loop that ends with every reactor closed, or in which QEMU is reported often enough, leaves QEMU's whole stream in the output; without it nothing more is read |
| `Runner.Pipe.Read` | templates/lab4/gradelib.py:290 | a read removes a prefix of what the peer still sends |
| `Runner.Runner.ReadQemu` | templates/lab4/gradelib.py:289-297 | reading QEMU is the step of the state machine; requires an open reactor |
| `Runner.Runner.ReadGdb` | templates/lab4/gradelib.py:322-342 | reading the stub, failures included, is the step of the state machine; requires an open reactor |
| `Runner.Runner.React` | templates/lab4/gradelib.py:445-463 | the loop over any script of select results ends as the state machine does, and reads open reactors only |
| `Runner.Runner.RunQemu` | templates/lab4/gradelib.py:416-427 | the main loop, the kill command and the shutdown loop are those of the state machine; `$c#63`, and the byte 3 and `$k#6b`, are sent, unless the stub is gone before the shutdown, which then fails; a finished shutdown leaves QEMU closed and its whole stream accumulated |
| `Sessions.SessionOutcome` | templates/lab4/gradelib.py:409-427 | after a whole run with any logs, watchers and breakpoints: output decoded, both streams conserved, the monitors those registered, each log with no watcher before it a full copy, and QEMU closed iff a read found the end of file undisturbed |
| `Sessions.SessionStop` | templates/lab4/gradelib.py:409-427 | whichever set-up's watcher stops the main loop, on a line heard in full and free of other breaks, r.match with its pattern succeeds on the final output; a line with another break is not among those r.match looks at |
| `Sessions.SessionStopsIff` | templates/lab4/gradelib.py:409-417 | if every line watcher is a stop_on_line, a monitor ends the main loop iff the pattern of some set-up matches a line completed since |
| `Sessions.SetupsAreDone` | templates/lab4/gradelib.py:412-414 | each set-up registers the fresh log or watcher it stands for, or sends its breakpoint, in the order of the set-ups |
| `Sessions.MonitorIsSetup` | templates/lab4/gradelib.py:412-414 | no callback is registered but for a set-up |
| `Sessions.SessionShutdown` | templates/lab4/gradelib.py:419-427 | a finished shutdown leaves QEMU's whole stream in the output; the stub is gone before it only if its stream has ended or failed |
| `Sessions.WatchedRun` | templates/lab4/gradelib.py:392-427 | the same for the objects, built, given any list of these monitors and run as run_qemu does: each log file, the output, the stops, the shutdown, and the breakpoints, `c` and `k` that the stub reads, in this order |
| `LinesMatch.AssertLinesMatch` | templates/lab4/gradelib.py:140-188 | returns iff every regexp matches some line and no `no` regexp matches any; otherwise the message is non-empty and, read line by line, is the excerpt, the notice and the missing regexps, in this order; for regexps without newlines it tells what the next row says |
| `LinesMatch.MessageTells` | templates/lab4/gradelib.py:160-188 | a failure message lists a regexp as missing iff no line matches it, has the notice iff a `no` regexp matches a line, marks a text BAD iff a line with this text matches a `no` regexp, GOOD iff it is a first match and not bad, and shows it unmarked iff it is within two lines of a marked one or among the last five with a regexp missing |
| `LinesMatch.Classify` | templates/lab4/gradelib.py:149-158 | what is left are the regexps no line matches, in order and with repetitions; good lines are the first matches; bad lines match some `no` regexp |
| `LinesMatch.MissingSnoc` | templates/lab4/gradelib.py:156 | dropping those that match one more line leaves those no line so far matches |
| `LinesMatch.Window` | templates/lab4/gradelib.py:164-169 | exactly the numbers within two of a good or bad line, and of the last five lines if a regexp is missing |
| `LinesMatch.RenderWindow` | templates/lab4/gradelib.py:171-183 | the loop over the sorted numbers produces the excerpt's rows |
| `LinesMatch.ScanIsTheExcerpt` | templates/lab4/gradelib.py:171-183 | the excerpt, one row per shown line and one ellipsis per maximal omitted run, is unique and is what a scan of the lines gives |
| `Sorting.Sorted` | templates/lab4/gradelib.py:173 | the members of the set in ascending order |
| `LinesMatch.TagTells` | templates/lab4/gradelib.py:178-180 | the tag tells bad, good and other lines apart; a line that is both shows as bad |
| `LinesMatch.JoinReadBack` | templates/lab4/gradelib.py:188 | joined parts, cut at newlines, are the lines of all parts in order |
| `LinesMatch.MessageShowsRows` | templates/lab4/gradelib.py:182-188 | read line by line a failure message is its rows, unless a missing regexp itself spans lines |
| `LinesMatch.FailureMessageNotEmpty` | templates/lab4/gradelib.py:182-188 | every failure's message is non-empty |
| `Excerpts.ExcerptShape` | templates/lab4/gradelib.py:171-183 | shown lines in range, ascending, each once; one ellipsis per maximal omitted run, never two in a row; one at the end iff the last line is omitted |
| `Excerpts.NoTrailingEllipsis` | templates/lab4/gradelib.py:168-183 | no trailing ellipsis when a regexp is missing |
| `Excerpts.GoodLinesUseRegexps` | templates/lab4/gradelib.py:153-156 | each good line uses up at least one regexp |
| `Excerpts.ExcerptIsBounded` | templates/lab4/gradelib.py:164-169 | at most five lines shown for each good or bad line, and five more |
| `Excerpts.AssertEqual` | templates/lab4/gradelib.py:131-138 | returns iff the two values are equal; otherwise the message, read line by line, is the caller's text and then both values line by line, indented, each under its heading |
| `Excerpts.IndentShowsLines` | templates/lab4/gradelib.py:136-138 | indenting a value indents each of its lines and keeps them apart |
| `Outcomes.MatchTest` | templates/lab4/gradelib.py:49-65 | a test whose body is r.match fails iff the assertion does not hold |
| `Outcomes.EqualTest` | templates/lab4/gradelib.py:49-65 | a test whose body is assert_equal fails iff the values differ |
| `Grading.RunTestKeeps` | templates/lab4/gradelib.py:33-68 | running a test runs exactly those of its lineage that have not run, each after its parent |
| `Grading.RunTestsRunsWanted` | templates/lab4/gradelib.py:107-112 | for any filter, exactly the selected tests and all their ancestors complete; each body runs once, alone, as the current test, after its parent has finished |
| `Grading.WantedIff` | templates/lab4/gradelib.py:110-112 | wanted means: a selected test or an ancestor of one |
| `Grading.SelectedIff` | templates/lab4/gradelib.py:108-111 | however letters are lowered, an entry is selected iff some lowered argument stands at some position of its lowered title, or there is no argument |
| `Grading.SelectedIgnoresCase` | templates/lab4/gradelib.py:108-111 | arguments and titles that lower alike select alike, for any lowering |
| `Grading.SelectedByLetters` | templates/lab4/gradelib.py:108-111 | where letters are lowered one by one, an entry is selected iff some argument occurs in its title up to case |
| `Grading.PartShownIff` | templates/lab4/gradelib.py:86-111 | the end of a part is shown iff there are no arguments or one of them is empty |
| `Grading.ScoreOfRun` | templates/lab4/gradelib.py:54-118 | POSSIBLE and TOTAL are the sums over finished and passed tests; printed part scores plus the remainder are TOTAL and POSSIBLE; exit 1 iff the failed points exceed zero, for non-negative points iff a finished test worth points failed |
| `Grading.TotalIsReturnedIff` | templates/lab4/gradelib.py:49-65 | for any filter, TOTAL exceeds the points of the tests whose bodies returned by those of the finished tests that raised with an empty text; for non-negative points the two agree iff no finished test worth points did |
| `Grading.BareAssertScores` | templates/lab4/gradelib.py:49-65 | one failing bare assert scores its points and the process exits successfully |
| `Grading.UnfilteredOrder` | templates/lab4/gradelib.py:109-112 | without a filter, bodies run in the order of registration |
| `Grading.UnfilteredPartScores` | templates/lab4/gradelib.py:79-87 | without a filter, each printed part score is the points passed and possible among the tests registered since the previous end of a part |
| `Grading.FilteredPartScores` | templates/lab4/gradelib.py:79-87 | for any filter, the printed part scores are those of the ends of parts that are shown, each with the points passed and possible among the tests that ran since the one shown before |
| `TestRunner.Spaces` | templates/lab4/gradelib.py:29 | the title from the function name, underscores as spaces |
| `TestRunner.TitleIsAsPromised` | templates/lab4/gradelib.py:27-31 | character by character: the indent of a test with a parent, and then the given title or the name without its prefix and underscores |
| `TestRunner.TestSuite.constructor` | templates/lab4/gradelib.py:15-18 | the initial globals |
| `TestRunner.TestSuite.Register` | templates/lab4/gradelib.py:20-77 | one more new, incomplete test at the end and the score unchanged; its title is two spaces if it has a parent, then the given title, or else the name from its sixth character on with spaces for underscores |
| `TestRunner.TestSuite.RegisterPart` | templates/lab4/gradelib.py:79-87 | one more end of a part |
| `TestRunner.TestSuite.RunTest` | templates/lab4/gradelib.py:33-68 | running a test, its parent first, as the state machine does |
| `TestRunner.TestSuite.RunBody` | templates/lab4/gradelib.py:43-68 | the body, the score and the current test, as the state machine does |
| `TestRunner.TestSuite.ShowPart` | templates/lab4/gradelib.py:80-85 | printing a part's score, as the state machine does |
| `TestRunner.TestSuite.RunTests` | templates/lab4/gradelib.py:89-118 | the whole run for any arguments and any lowering of letters, the final score line, which is printed iff there are no arguments, and the exit status |
| `TestRunner.Grade` | templates/lab4/gradelib.py:20-118 | a grading script from its declarations on: what each declares, which tests complete, in which order, every printed score for any arguments, and the exit status |
| `MessagePump.StoreKeepsHolds` | solutions/gae/async/main.cpp:76-81 | storing keeps the latest twenty messages of the backlog in their slots |
| `MessagePump.PendingIsSurvivors` | solutions/gae/async/main.cpp:84-89 | what lies between the two indices is the last k mod 20 messages stored since the last drain |
| `MessagePump.Pump.constructor` | solutions/gae/async/main.cpp:48-52 | an empty ring |
| `MessagePump.Pump.Store` | solutions/gae/async/main.cpp:76-81 | one more message in the backlog |
| `MessagePump.Pump.DrainAll` | solutions/gae/async/main.cpp:83-91 | after k messages, for any k and start, exactly the last k mod 20 are sent, in order, and the indices meet |
| `MessagePump.Pump.Pass` | solutions/gae/async/main.cpp:70-93 | one pass stores before it drains |
| `MessagePump.Pump.Loop` | solutions/gae/async/main.cpp:56-96 | any number of passes, tied to the ring, the history of steps and the messages received |
| `MessagePump.RefinesQueueIff` | solutions/gae/async/main.cpp:76-92 | sent plus what the ring holds is everything stored iff no drain found twenty messages or more and there are not twenty now; what is lost is counted |
| `MessagePump.RunRefinesQueueIff` | solutions/gae/async/main.cpp:56-96 | the same over every run of the ring from empty |
| `MessagePump.HistoryOfScript` | solutions/gae/async/main.cpp:70-93 | for any script: what is stored are the messages of standard input, in order, and the exact condition of the theorem above is that fewer than twenty wait in every pass |
| `MessagePump.ReceivedAreListed` | solutions/gae/async/main.cpp:71-75 | what is shown are the messages of the input pipe, all of them and in order |
| `MessagePump.TwentyStoresAreLost` | solutions/gae/async/main.cpp:76-84 | after twenty stores without a drain the ring holds nothing and has sent nothing |
| `MessagePump.RunPump` | solutions/gae/async/main.cpp:48-96 | the program from its start: it shows exactly the messages of the input pipe; sent plus what the ring holds are all messages of standard input, in order, iff in no pass there were twenty that came since the last room in the output pipe; after a pass with room the ring is empty |
| `MessagePump.FullRingLooksEmpty` | solutions/gae/async/main.cpp:84 | the indices agree iff the backlog is a multiple of twenty, and then nothing is sent |
| `Relay.SenderStepKeepsFlow` | solutions/mal/async/async.c:37-48 | a step of the sender keeps the bytes under way and their order |
| `Relay.ReceiverStepKeepsFlow` | solutions/lub/async/async.c:59-69 | a step of the receiver keeps the bytes under way and their order |
| `Relay.RunKeepsFlow` | solutions/mal/async/async.c:37-48 | in every interleaving over crossed pipes: shown, read from the pipe, in the pipe, read from input and unread bytes, in this order, never change |
| `Relay.FullDuplex` | solutions/lub/async/async.c:19-24 | the two programs with the same two pipes, mal reading the first and lub the second: each side has shown a prefix of the other's input, and the rest is under way |
| `Relay.EverythingCanArrive` | solutions/mal/async/async.c:36-48 | from every reachable state there are further steps after which each side has shown all of the other's input |
| `Relay.ShowsOnlyTheOtherSideIff` | solutions/mal/async/async.c:14-15 | in all runs a side shows only the other side's input, iff the two arguments lead to different pipes |
| `Relay.DeliversIff` | solutions/lub/async/async.c:19-24 | with different pipes something can get through iff the programs have opposite roles |
| `Relay.ReportableIff` | solutions/mal/async/async.c:38-39 | epoll_wait may report nothing, either descriptor or both in either order, the pipe only if it holds data |
| `RelayProcess.RelayLoop.Fill` | solutions/mal/async/async.c:38 | a read puts the bytes at the front of the reused buffer |
| `RelayProcess.RelayLoop.Step` | solutions/mal/async/async.c:36-46 | waiting, reading and writing with one reused buffer are the steps of the state machine |
| `RelayProcess.RelayLoop.constructor` | solutions/lub/async/async.c:19-24 | a process that reads the pipe of argv[1] and writes that of argv[2], or the opposite for lub |
| `RelayProcess.Link.Schedule` | solutions/lub/async/async.c:59-69 | any interleaving of two processes is a run of the state machine |

## Left out

- Starting and stopping QEMU, `make`, connecting to the stub, the start-up callback that waits for the first line (lines 247-287, 304-316, 392-407, 435-443), and process exit during shutdown: foreign calls.
- `GDBClient.close`, and sending on a socket that is gone, which raises: only the consequence for the shutdown loop is modelled.
- Symbol lookup in `stop_breakpoint` (lines 514-519): reading one file and picking its first matching line; the breakpoint command itself is modelled.
- Clocks: a passed deadline is a possible result of each pass of the reactor loop, and durations are not printed.
- General regular expressions: `re.match` is an arbitrary predicate of pattern and line.
- Exceptions other than AssertionError in test bodies and TerminateTest in callbacks, and KeyboardInterrupt.
- The effects of `on_finish` callbacks: a finish is an event that carries the failure flag and the current test; copying and deleting log files is I/O.
- A body's outcome is fixed in advance, which loses nothing because each body runs at most once.
- TestRunner.TestSuite.RunTest: titles, colours and messages that are printed while tests run are not part of its state; the part scores and the final score are.
- Grading.SelectedByLetters: `str.lower` is an arbitrary function in every other theorem; only this reading assumes that it lowers the arguments and the title letter by letter.
- Grading.PartShownIff: assumes that lowering leaves the empty text empty.
- Runner.Runner.React: reads after the same `save` monitor was given twice to one run, so that each chunk is written twice to one file, are not modelled; the second registration itself is.
- Sessions.WatchedRun: monitors other than `save`, `call_on_line`, `stop_on_line` and `stop_breakpoint` that a script might write itself are not modelled.
- Option parsing, verbose output, make timestamps and file system reset.
- MessagePump.Pump.Pass: a message is an opaque value; missing terminators, lengths and failing reads and writes of C strings are not modelled.
- Relay.RunKeepsFlow: reads and writes do not fail and writes are complete; a full pipe only delays a write, so it adds no behaviour.
- The other async programs and the earlier versions of the grading library, which repeat this logic or lose data in simpler ways.
