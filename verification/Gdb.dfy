// The GDB client: receiving frames from arbitrary chunks and sending commands.
module Gdb {
  import opened Basics
  import opened Text
  import opened Framing
  import opened Commands

  // The receiving half of a client as a value.  `received` and `popped` are its
  // history: all bytes read and all packets taken from the buffer.  `stops` counts
  // the reads that raised TerminateTest.
  datatype Client = Client(open: bool, buf: string, received: seq<byte>, popped: seq<string>, stops: nat)

  // One handle_read with the bytes recv returned; none stand for end of file and
  // for a socket error alike.  The flag says that TerminateTest was raised.
  function Read(c: Client, data: seq<byte>): (Client, bool) {
    if data == [] then (c.(open := false), false)
    else
      var p := Pop(c.buf + DecodeAscii(data));
      (Client(c.open, p.rest, c.received + data, c.popped + p.packets,
              c.stops + if p.stopped then 1 else 0), p.stopped)
  }

  predicate BreakpointReplyAt(pkts: seq<string>, i: nat) {
    i < |pkts| && |pkts[i]| >= 3 && pkts[i][0] == 'T' && pkts[i][1] == '0' && pkts[i][2] == '5'
  }

  // A read closes the client exactly when it delivers nothing, and raises exactly when a
  // breakpoint reply, a packet that begins with these three characters, is complete in
  // what it has then.
  lemma ReadClosesAndStopsIff(c: Client, data: seq<byte>)
    ensures
      var (c', stopped) := Read(c, data);
      && (c'.open <==> c.open && data != [])
      && (stopped <==> data != [] && exists i :: BreakpointReplyAt(Packets(c.buf + DecodeAscii(data)), i))
      && (stopped <==> c'.stops > c.stops)
  {
    hide Packets, Pop, DecodeAscii;
    var text := c.buf + DecodeAscii(data);
    PopStopsIffStopReply(text);
    assert forall i: nat :: BreakpointReplyAt(Packets(text), i) <==> i < |Packets(text)| && IsStop(Packets(text)[i]);
  }

  function CountStops(pkts: seq<string>): nat {
    if pkts == [] then 0 else (if IsStop(pkts[0]) then 1 else 0) + CountStops(pkts[1..])
  }

  // What every read keeps: popped packets followed by those still in the buffer are
  // the packets of everything received, and each breakpoint reply stopped once.
  ghost predicate Consistent(c: Client) {
    && Packets(DecodeAscii(c.received)) == c.popped + Packets(c.buf)
    && Residue(DecodeAscii(c.received)) == Residue(c.buf)
    && CountStops(c.popped) == c.stops
  }

  lemma {:induction false} CountStopsAppend(a: seq<string>, b: seq<string>)
    ensures CountStops(a + b) == CountStops(a) + CountStops(b)
  {
    if a == [] {
      assert a + b == b;
    } else {
      assert (a + b)[1..] == a[1..] + b;
      CountStopsAppend(a[1..], b);
    }
  }

  lemma {:induction false} CountStopsZero(pkts: seq<string>)
    ensures CountStops(pkts) == 0 <==> NoStop(pkts)
  {
    if pkts != [] {
      CountStopsZero(pkts[1..]);
      assert NoStop(pkts) <==> !IsStop(pkts[0]) && NoStop(pkts[1..]) by {
        assert forall i :: 0 <= i < |pkts| - 1 ==> pkts[1..][i] == pkts[i + 1];
        assert forall i :: 1 <= i < |pkts| ==> pkts[i] == pkts[1..][i - 1];
      }
    }
  }

  lemma CountStopsOfPop(s: string)
    ensures CountStops(Pop(s).packets) == if Pop(s).stopped then 1 else 0
  {
    hide Pop, CountStops;
    var p := Pop(s);
    CountStopsZero(p.packets);
    if p.stopped {
      var last := |p.packets| - 1;
      CountStopsZero(p.packets[..last]);
      CountStopsSingle(p.packets[last]);
      assert p.packets == p.packets[..last] + [p.packets[last]];
      CountStopsAppend(p.packets[..last], [p.packets[last]]);
    }
  }

  lemma CountStopsSingle(pkt: string)
    ensures CountStops([pkt]) == if IsStop(pkt) then 1 else 0
  {
    assert [pkt][1..] == [];
  }

  lemma ReadKeepsConsistent(c: Client, data: seq<byte>)
    requires Consistent(c)
    ensures Consistent(Read(c, data).0)
  {
    if data != [] {
      var text := DecodeAscii(data);
      var p := Pop(c.buf + text);
      DecodeAsciiAppend(c.received, data);
      PacketsAppend(DecodeAscii(c.received), text);
      PacketsAppend(c.buf, text);
      PopConserves(c.buf + text);
      CountStopsOfPop(c.buf + text);
      CountStopsAppend(c.popped, p.packets);
      PacketsChain(c.popped, Packets(c.buf), Packets(Residue(c.buf) + text), p.packets, Packets(p.rest));
    }
  }

  lemma PacketsChain(popped: seq<string>, a: seq<string>, b: seq<string>, now: seq<string>, later: seq<string>)
    requires a + b == now + later
    ensures (popped + a) + b == (popped + now) + later
  {
    AppendAssociative(popped, a, b);
    AppendAssociative(popped, now, later);
  }

  // ---------- whole runs ----------

  const FRESH: Client := Client(true, "", [], [], 0)

  lemma FreshIsConsistent()
    ensures Consistent(FRESH)
  {
    assert DecodeAscii([]) == "";
    NothingInNothing();
  }

  // A run of reads; a stop ends only the read that raised it.
  function ReadAll(c: Client, chunks: seq<seq<byte>>): Client
    decreases |chunks|
  {
    if chunks == [] then c else ReadAll(Read(c, chunks[0]).0, chunks[1..])
  }

  lemma {:induction false} ReadAllKeepsConsistent(c: Client, chunks: seq<seq<byte>>)
    requires Consistent(c)
    ensures Consistent(ReadAll(c, chunks))
    ensures ReadAll(c, chunks).received == c.received + Concat(chunks)
    decreases |chunks|
  {
    hide Consistent, Pop, DecodeAscii;
    if chunks != [] {
      ReadKeepsConsistent(c, chunks[0]);
      ReadAllKeepsConsistent(Read(c, chunks[0]).0, chunks[1..]);
      AppendAssociative(c.received, chunks[0], Concat(chunks[1..]));
    }
  }

  // However a byte stream is cut into reads, and however many of them a breakpoint
  // reply cuts short, the packets popped and those the buffer still yields are the
  // packets of the whole stream.
  lemma FramingIgnoresChunking(chunks: seq<seq<byte>>)
    ensures
      var c := ReadAll(FRESH, chunks);
      var text := DecodeAscii(Concat(chunks));
      && c.popped + Packets(c.buf) == Packets(text)
      && Residue(c.buf) == Residue(text)
      && c.stops + CountStops(Packets(c.buf)) == CountStops(Packets(text))
  {
    hide Packets, Residue, Search;
    ReadAllKeepsConsistent(FRESH, chunks);
    var c := ReadAll(FRESH, chunks);
    assert c.received == Concat(chunks);
    CountStopsAppend(c.popped, Packets(c.buf));
  }

  // A run that never stopped has popped everything: its packets and its buffer are
  // those of one single read of the whole stream.
  lemma UnstoppedRunPopsAll(c: Client, chunks: seq<seq<byte>>)
    requires Consistent(c) && Search(c.buf).None?
    requires ReadAll(c, chunks).stops == c.stops
    ensures ReadAll(c, chunks).popped == Packets(DecodeAscii(c.received + Concat(chunks)))
    ensures ReadAll(c, chunks).buf == Residue(DecodeAscii(c.received + Concat(chunks)))
  {
    ReadAllKeepsConsistent(c, chunks);
    UnstoppedRunLeavesNoFrame(c, chunks);
  }

  lemma {:induction false} UnstoppedRunLeavesNoFrame(c: Client, chunks: seq<seq<byte>>)
    requires Search(c.buf).None?
    requires ReadAll(c, chunks).stops == c.stops
    ensures Search(ReadAll(c, chunks).buf).None?
    decreases |chunks|
  {
    if chunks != [] {
      var c' := Read(c, chunks[0]).0;
      StopsOnlyGrow(c', chunks[1..]);
      PopStopsIffStopReply(c.buf + DecodeAscii(chunks[0]));
      UnstoppedRunLeavesNoFrame(c', chunks[1..]);
    }
  }

  lemma {:induction false} StopsOnlyGrow(c: Client, chunks: seq<seq<byte>>)
    ensures ReadAll(c, chunks).stops >= c.stops
    decreases |chunks|
  {
    if chunks != [] {
      StopsOnlyGrow(Read(c, chunks[0]).0, chunks[1..]);
    }
  }

  // ---------- the object ----------

  const BREAK: byte := 3

  class GdbClient {
    var open: bool          // whether the sock attribute still holds the socket
    var buf: string
    var sent: seq<byte>     // everything handed to sendall

    ghost var received: seq<byte>
    ghost var popped: seq<string>
    ghost var stops: nat

    ghost function View(): Client
      reads this
    {
      Client(open, buf, received, popped, stops)
    }

    ghost predicate Valid()
      reads this
    {
      Consistent(View())
    }

    // What a peer with the same framing, which drops frames with a wrong checksum, has
    // read of everything sent.
    ghost function Commands(): seq<string>
      reads this`sent
    {
      Accepted(DecodeAscii(sent))
    }

    // What it has not framed yet cannot begin a frame.
    ghost predicate Settled()
      reads this`sent
    {
      Free('$', Residue(DecodeAscii(sent)))
    }

    constructor ()
      ensures Valid() && Settled()
      ensures View() == FRESH && sent == [] && Commands() == []
    {
      open, buf, sent := true, "", [];
      received, popped, stops := [], [], 0;
      new;
      NothingInNothing();
    }

    method HandleRead(data: seq<byte>) returns (stopped: bool)
      requires Valid() && open
      modifies this`open, this`buf, this`received, this`popped, this`stops
      ensures Valid()
      ensures (View(), stopped) == Read(old(View()), data)
      ensures open <==> data != []
    {
      hide Packets, Residue, Search, CountStops, DecodeAscii;
      ReadKeepsConsistent(View(), data);
      if data == [] {
        open := false;
        return false;
      }
      buf := buf + DecodeAscii(data);
      received := received + data;
      ghost var text, before := buf, popped;
      while true
        invariant Pop(text).rest == Pop(buf).rest && Pop(text).stopped == Pop(buf).stopped
        invariant before + Pop(text).packets == popped + Pop(buf).packets
        invariant open && stops == old(stops) && received == old(received) + data
        decreases |buf|
      {
        var m := Search(buf);
        if m.None? {
          assert popped == popped + [];
          return false;
        }
        var pkt := m.value.Group(buf);
        ghost var rest := Pop(buf[m.value.End()..]).packets;
        buf := buf[m.value.End()..];
        AppendAssociative(popped, [pkt], rest);
        popped := popped + [pkt];
        if "T05" <= pkt {
          stops := stops + 1;
          return true;
        }
      }
    }

    // Encoding a command that is not ASCII raises and sends nothing.  A command
    // without '#' is what the peer reads next.
    method Send(cmd: string) returns (raised: bool)
      requires open
      modifies this`sent
      ensures raised <==> exists i :: 0 <= i < |cmd| && cmd[i] as int >= 128
      ensures sent == old(sent) + if raised then [] else EncodeAscii(Packet(cmd))
      ensures !raised ==> IsFrameOf(DecodeAscii(sent[|old(sent)|..]), cmd)
      ensures !raised && Free('#', cmd) && old(Settled()) ==>
        Settled() && Commands() == old(Commands()) + [cmd]
    {
      hide Accepted, Residue, DecodeAscii, Packet, EncodeAscii, IsFrameOf;
      if !IsAscii(cmd) {
        return true;
      }
      PacketIsFrame(cmd);
      AsciiRoundTrip(Packet(cmd));
      if Free('#', cmd) && Settled() {
        SentPacketIsRead(sent, cmd);
      }
      sent := sent + EncodeAscii(Packet(cmd));
      return false;
    }

    method SendBreak()
      requires open
      modifies this`sent
      ensures sent == old(sent) + [3]
      ensures old(Settled()) ==> Settled() && Commands() == old(Commands())
    {
      hide Accepted, Residue, DecodeAscii;
      if Settled() {
        SentBreakIsNoise(sent);
      }
      sent := sent + [BREAK];
    }

    method Cont()
      requires open
      modifies this`sent
      ensures sent == old(sent) + CONT
      ensures old(Settled()) ==> Settled() && Commands() == old(Commands()) + ["c"]
    {
      hide Accepted, Residue, DecodeAscii, Packet, EncodeAscii;
      ContBytes();
      var raised := Send("c");
    }

    method Breakpoint(addr: int)
      requires open
      modifies this`sent
      ensures IsAscii(BreakpointCmd(addr)) && sent == old(sent) + EncodeAscii(Packet(BreakpointCmd(addr)))
      ensures old(Settled()) ==>
        && Settled() && Commands() == old(Commands()) + [BreakpointCmd(addr)]
        && ReadBreakpoint(Commands()[|Commands()| - 1]) == Some(Point("Z1", addr, "1"))
    {
      hide Accepted, Residue, DecodeAscii, Packet, EncodeAscii, BreakpointCmd, ReadBreakpoint;
      BreakpointCmdIsPlain(addr);
      BreakpointReadBack(addr);
      var raised := Send(BreakpointCmd(addr));
    }

    method Kill()
      requires open
      modifies this`sent
      ensures sent == old(sent) + KILL
      ensures old(Settled()) ==> Settled() && Commands() == old(Commands()) + ["k"]
    {
      hide Accepted, Residue, DecodeAscii, Packet, EncodeAscii;
      KillBytes();
      SendBreak();
      var raised := Send("k");
      AppendAssociative(old(sent), [3], EncodeAscii(Packet("k")));
    }
  }

  // What the continue and the kill command put on the wire: "$c#63", and the break byte
  // before "$k#6b".
  ghost const CONT: seq<byte> := [36, 99, 35, 54, 51]
  ghost const KILL: seq<byte> := [3, 36, 107, 35, 54, 98]

  lemma ContBytes()
    ensures EncodeAscii(Packet("c")) == CONT
  {
    hide Packet, EncodeAscii, Checksum, HexDigit;
    OneCharacterFrame('c');
    ChecksumAdds("c", "");
    assert HexDigit(6) == '6' && HexDigit(3) == '3' by {
      SomeDigits();
    }
  }

  lemma KillBytes()
    ensures [3] + EncodeAscii(Packet("k")) == KILL
  {
    hide Packet, EncodeAscii, Checksum, HexDigit;
    OneCharacterFrame('k');
    ChecksumAdds("k", "");
    assert HexDigit(6) == '6' && HexDigit(11) == 'b' by {
      SomeDigits();
    }
  }

  lemma SomeDigits()
    ensures HexDigit(3) == '3' && HexDigit(6) == '6' && HexDigit(11) == 'b'
  {
  }

  lemma OneCharacterFrame(c: char)
    requires c as int < 128
    ensures
      var sum := Checksum([c]);
      EncodeAscii(Packet([c])) == [36, c as int, 35, HexDigit(sum / 16) as int, HexDigit(sum % 16) as int]
  {
    hide Packet, EncodeAscii, Checksum, HexDigit;
    PacketIsFrame([c]);
    var p := Packet([c]);
    assert p[1] == p[1..2][0];
  }

  function BreakpointCmd(addr: int): string {
    "Z1," + HexInt(addr) + ",1"
  }

  // The peer's view of a breakpoint command: three fields with commas between them, the
  // one in the middle a hexadecimal number, perhaps with a minus sign.
  datatype Point = Point(kind: string, addr: int, size: string)

  ghost function ReadBreakpoint(cmd: string): Option<Point> {
    var first := Find(cmd, ',', 0);
    if first == |cmd| then None
    else
      var rest := cmd[first + 1..];
      var second := Find(rest, ',', 0);
      if second == |rest| then None
      else
        match ReadHexInt(rest[..second])
        case None => None
        case Some(addr) => Some(Point(cmd[..first], addr, rest[second + 1..]))
  }

  ghost function ReadHexInt(field: string): Option<int> {
    var negative := field != "" && field[0] == '-';
    var digits := if negative then field[1..] else field;
    if digits == "" || !IsHex(digits) then None
    else Some(if negative then 0 - HexValue(digits) else HexValue(digits))
  }

  // A hardware breakpoint ("packets" section of the appendix "GDB Remote Serial
  // Protocol" of the GDB manual) of size one at this address.
  lemma BreakpointReadBack(addr: int)
    ensures ReadBreakpoint(BreakpointCmd(addr)) == Some(Point("Z1", addr, "1"))
  {
    hide ReadHexInt, HexInt;
    HexIntReadBack(addr);
    var rest := HexInt(addr) + "," + "1";
    FirstField("Z1", rest);
    FirstField(HexInt(addr), "1");
    assert BreakpointCmd(addr) == "Z1" + "," + rest;
  }

  lemma HexIntReadBack(n: int)
    ensures ReadHexInt(HexInt(n)) == Some(n)
    ensures Free(',', HexInt(n)) && Free('#', HexInt(n)) && IsAscii(HexInt(n))
  {
    hide HexValue, Hex;
    HexRoundTrip(if n < 0 then -n else n);
    if n < 0 {
      assert HexInt(n)[1..] == Hex(-n);
    }
  }

  lemma FirstField(field: string, rest: string)
    requires Free(',', field)
    ensures
      var cmd, k := field + "," + rest, |field|;
      Find(cmd, ',', 0) == k && cmd[..k] == field && cmd[k + 1..] == rest
  {
    hide Find;
    var cmd := field + "," + rest;
    assert cmd[|field|] == ',';
    assert forall i :: 0 <= i < |field| ==> cmd[i] == field[i];
  }

  lemma BreakpointCmdIsPlain(addr: int)
    ensures IsAscii(BreakpointCmd(addr)) && Free('#', BreakpointCmd(addr))
  {
    hide HexInt;
    HexIntReadBack(addr);
  }

  lemma SentPacketIsRead(sent: seq<byte>, cmd: string)
    requires Free('$', Residue(DecodeAscii(sent)))
    requires IsAscii(Packet(cmd)) && Free('#', cmd)
    ensures
      var now := DecodeAscii(sent + EncodeAscii(Packet(cmd)));
      Accepted(now) == Accepted(DecodeAscii(sent)) + [cmd] && Residue(now) == ""
  {
    hide DecodeAscii, EncodeAscii, Packet, Packets, Accepted, Residue;
    var text, packet := DecodeAscii(sent), Packet(cmd);
    AsciiRoundTrip(packet);
    DecodeAsciiAppend(sent, EncodeAscii(packet));
    PacketsAppend(text, packet);
    AcceptedAppend(text, packet);
    FirstPacket(Residue(text), cmd, "");
    NothingInNothing();
    assert Residue(text) + packet + "" == Residue(text) + packet;
  }

  lemma NothingInNothing()
    ensures Packets("") == [] && Accepted("") == [] && Residue("") == ""
  {
    NoFrameWithoutDollar("");
  }

  lemma SentBreakIsNoise(sent: seq<byte>)
    requires Free('$', Residue(DecodeAscii(sent)))
    ensures
      var now := DecodeAscii(sent + [BREAK]);
      Accepted(now) == Accepted(DecodeAscii(sent)) && Free('$', Residue(now))
  {
    hide Accepted;
    var text, noise := DecodeAscii(sent), DecodeAscii([BREAK]);
    DecodeAsciiAppend(sent, [BREAK]);
    PacketsAppend(text, noise);
    AcceptedAppend(text, noise);
    NoFrameWithoutDollar(Residue(text) + noise);
  }
}
