// The sending half of the GDB client: how a command is written as a frame, and why
// a peer that frames its input the same way reads back exactly the commands.
module Commands {
  import opened Basics
  import opened Framing
  import opened Text

  // ---------- "%x" and "%02x" ----------

  predicate IsHexDigit(c: char) {
    '0' <= c <= '9' || 'a' <= c <= 'f'
  }

  // The digits of "%x".
  function HexDigit(d: nat): char
    requires d < 16
  {
    "0123456789abcdef"[d]
  }

  function Digit(d: nat): (c: char)
    requires d < 16
    ensures IsHexDigit(c) && DigitValue(c) == d
    ensures c == HexDigit(d)
  {
    if d < 10 then '0' + d as char else 'a' + (d - 10) as char
  }

  function DigitValue(c: char): nat
    requires IsHexDigit(c)
  {
    if c <= '9' then c as int - '0' as int else c as int - 'a' as int + 10
  }

  predicate IsHex(s: string) {
    forall i :: 0 <= i < |s| ==> IsHexDigit(s[i])
  }

  function Hex(n: nat): (s: string)
    ensures |s| >= 1 && IsHex(s)
    ensures |s| > 1 ==> s[0] != '0'
    ensures n < 256 ==> |s| <= 2
  {
    if n < 16 then [Digit(n)] else Hex(n / 16) + [Digit(n % 16)]
  }

  function HexInt(n: int): string {
    if n < 0 then "-" + Hex(-n) else Hex(n)
  }

  function Hex2(n: nat): (s: string)
    requires n < 256
    ensures |s| == 2 && IsHex(s)
  {
    if |Hex(n)| < 2 then "0" + Hex(n) else Hex(n)
  }

  // Reading digits back.
  function HexValue(s: string): nat
    requires IsHex(s)
  {
    if |s| == 0 then 0 else 16 * HexValue(s[..|s| - 1]) + DigitValue(s[|s| - 1])
  }

  lemma {:induction false} HexRoundTrip(n: nat)
    ensures HexValue(Hex(n)) == n
  {
    if n >= 16 {
      HexRoundTrip(n / 16);
      assert Hex(n)[..|Hex(n)| - 1] == Hex(n / 16);
    }
  }

  // Any byte value prints as exactly two digits the framing pattern accepts, and
  // the two digits still denote the value.
  lemma Hex2IsTrailer(n: nat)
    requires n < 256
    ensures |Hex2(n)| == 2 && IsAlnum(Hex2(n)[0]) && IsAlnum(Hex2(n)[1])
    ensures HexValue(Hex2(n)) == n
  {
    HexRoundTrip(n);
    if n < 16 {
      assert Hex2(n)[..1] == ['0'];
      assert HexValue(['0'][..0]) == 0;
      assert HexValue(['0']) == 0;
    }
  }

  // Both digits, the higher one first.
  lemma Hex2Digits(n: nat)
    requires n < 256
    ensures Hex2(n) == [HexDigit(n / 16), HexDigit(n % 16)]
  {
    hide Digit;
    if n < 16 {
      assert Hex2(n) == ['0', Digit(n)];
    } else {
      assert Hex(n / 16) == [Digit(n / 16)];
      assert Hex2(n) == [Digit(n / 16), Digit(n % 16)];
    }
  }

  // ---------- frames ----------

  function Checksum(cmd: string): (sum: nat)
    ensures sum < 256
  {
    Sum(cmd) % 256
  }

  function Sum(cmd: string): nat {
    if |cmd| == 0 then 0 else cmd[0] as int + Sum(cmd[1..])
  }

  // The checksum is the sum of the characters modulo 256: it is zero for nothing, the
  // character itself for one, and adds up over parts.
  lemma ChecksumAdds(a: string, b: string)
    ensures Checksum(a + b) == (Checksum(a) + Checksum(b)) % 256
    ensures |a| == 1 ==> Checksum(a) == a[0] as int % 256
    ensures Checksum([]) == 0
  {
    SumAdds(a, b);
    ModAdds(Sum(a), Sum(b));
    assert |a| == 1 ==> Sum(a[1..]) == 0;
  }

  lemma ModAdds(x: nat, y: nat)
    ensures (x + y) % 256 == (x % 256 + y % 256) % 256
  {
  }

  lemma {:induction false} SumAdds(a: string, b: string)
    ensures Sum(a + b) == Sum(a) + Sum(b)
  {
    if |a| == 0 {
      assert a + b == b;
    } else {
      assert (a + b)[1..] == a[1..] + b;
      SumAdds(a[1..], b);
    }
  }

  function Packet(cmd: string): (s: string)
    ensures IsAscii(cmd) ==> IsAscii(s)
  {
    "$" + cmd + "#" + Hex2(Checksum(cmd))
  }

  // What a frame is: the command between '$' and '#', and then the sum of its
  // characters modulo 256 in two hexadecimal digits.
  ghost predicate IsFrameOf(frame: string, cmd: string) {
    && |frame| == |cmd| + 4
    && frame[0] == '$' && frame[1..1 + |cmd|] == cmd && frame[1 + |cmd|] == '#'
    && frame[2 + |cmd|] == HexDigit(Checksum(cmd) / 16)
    && frame[3 + |cmd|] == HexDigit(Checksum(cmd) % 16)
  }

  lemma PacketIsFrame(cmd: string)
    ensures IsFrameOf(Packet(cmd), cmd)
  {
    hide Hex2, Checksum, HexDigit;
    Hex2Digits(Checksum(cmd));
    assert Packet(cmd)[1..1 + |cmd|] == cmd;
  }

  predicate Free(c: char, s: string) {
    forall i :: 0 <= i < |s| ==> s[i] != c
  }

  // ---------- a peer that checks ----------

  // The two digits of a frame in s are the checksum of its group.
  predicate Intact(s: string, f: Frame)
    requires f.In(s)
  {
    && IsHexDigit(s[f.hash + 1]) && IsHexDigit(s[f.hash + 2])
    && 16 * DigitValue(s[f.hash + 1]) + DigitValue(s[f.hash + 2]) == Checksum(f.Group(s))
  }

  // What a peer reads that drops every frame with a wrong checksum.
  function Accepted(s: string): (cmds: seq<string>)
    decreases |s|
  {
    match Search(s)
    case None => []
    case Some(f) => (if Intact(s, f) then [f.Group(s)] else []) + Accepted(s[f.End()..])
  }

  lemma {:induction false} AcceptedAppend(a: string, b: string)
    ensures Accepted(a + b) == Accepted(a) + Accepted(Residue(a) + b)
    decreases |a|
  {
    hide Checksum;
    match Search(a)
    case None =>
    case Some(f) =>
      SearchStable(a, b);
      assert (a + b)[f.End()..] == a[f.End()..] + b;
      assert f.Group(a + b) == f.Group(a);
      AcceptedAppend(a[f.End()..], b);
      AppendAssociative(if Intact(a, f) then [f.Group(a)] else [], Accepted(a[f.End()..]),
                        Accepted(Residue(a[f.End()..]) + b));
  }

  // ---------- a stream of packets and noise ----------

  // A command and the noise sent before it, such as the break byte.
  datatype Item = Item(noise: string, cmd: string)

  function Stream(items: seq<Item>, tail: string): string {
    if items == [] then tail
    else items[0].noise + Packet(items[0].cmd) + Stream(items[1..], tail)
  }

  function Cmds(items: seq<Item>): seq<string> {
    if items == [] then [] else [items[0].cmd] + Cmds(items[1..])
  }

  // The characters of a frame in a text, after noise and before anything.
  lemma PacketAt(noise: string, cmd: string, rest: string)
    ensures
      var s, n := noise + Packet(cmd) + rest, |noise|;
      && |s| >= n + |cmd| + 4 && s[n] == '$' && s[n + 1 + |cmd|] == '#'
      && (forall j :: 0 <= j < |cmd| ==> s[n + 1 + j] == cmd[j])
      && s[n + 2 + |cmd|] == HexDigit(Checksum(cmd) / 16)
      && s[n + 3 + |cmd|] == HexDigit(Checksum(cmd) % 16)
      && s[n + 4 + |cmd|..] == rest
  {
    hide Packet, Checksum, HexDigit;
    PacketIsFrame(cmd);
    var s, packet := noise + Packet(cmd) + rest, Packet(cmd);
    assert forall j :: 0 <= j < |packet| ==> s[|noise| + j] == packet[j];
    var n := |noise|;
    forall j | 0 <= j < |cmd|
      ensures s[n + 1 + j] == cmd[j]
    {
      assert packet[1 + j] == packet[1..1 + |cmd|][j];
    }
  }

  lemma FrameInText(noise: string, cmd: string, rest: string)
    requires Free('#', cmd)
    ensures
      var s, f := noise + Packet(cmd) + rest, Frame(|noise|, |noise| + 1 + |cmd|);
      && f.In(s) && f.Group(s) == cmd && s[f.End()..] == rest
      && s[f.hash + 1] == HexDigit(Checksum(cmd) / 16)
      && s[f.hash + 2] == HexDigit(Checksum(cmd) % 16)
  {
    hide Packet, Checksum, HexDigit, IsAlnum, Free;
    PacketAt(noise, cmd, rest);
    HexDigitIsAlnum(Checksum(cmd) / 16);
    HexDigitIsAlnum(Checksum(cmd) % 16);
    FrameAround(noise + Packet(cmd) + rest, |noise|, cmd);
  }

  lemma FrameAround(s: string, n: nat, cmd: string)
    requires Free('#', cmd) && |s| >= n + |cmd| + 4
    requires s[n] == '$' && s[n + 1 + |cmd|] == '#'
    requires forall j :: 0 <= j < |cmd| ==> s[n + 1 + j] == cmd[j]
    requires IsAlnum(s[n + 2 + |cmd|]) && IsAlnum(s[n + 3 + |cmd|])
    ensures Frame(n, n + 1 + |cmd|).In(s) && Frame(n, n + 1 + |cmd|).Group(s) == cmd
  {
    hide IsAlnum;
    assert forall j :: n < j < n + 1 + |cmd| ==> s[j] == cmd[j - n - 1];
  }

  lemma HexDigitIsAlnum(d: nat)
    requires d < 16
    ensures IsAlnum(HexDigit(d))
  {
    var c := Digit(d);
  }

  lemma SearchFindsPacket(noise: string, cmd: string, rest: string)
    requires Free('$', noise) && Free('#', cmd)
    ensures Search(noise + Packet(cmd) + rest) == Some(Frame(|noise|, |noise| + 1 + |cmd|))
  {
    hide Search, Packet, Checksum, HexDigit;
    var s := noise + Packet(cmd) + rest;
    FrameInText(noise, cmd, rest);
    assert forall j :: 0 <= j < |noise| ==> s[j] == noise[j];
    SearchUnique(s, Frame(|noise|, |noise| + 1 + |cmd|));
  }

  lemma FirstPacket(noise: string, cmd: string, rest: string)
    requires Free('$', noise) && Free('#', cmd)
    ensures Packets(noise + Packet(cmd) + rest) == [cmd] + Packets(rest)
    ensures Residue(noise + Packet(cmd) + rest) == Residue(rest)
    ensures Accepted(noise + Packet(cmd) + rest) == [cmd] + Accepted(rest)
  {
    hide Packet, Search, Checksum, HexDigit;
    var f := Frame(|noise|, |noise| + 1 + |cmd|);
    SearchFindsPacket(noise, cmd, rest);
    FrameInText(noise, cmd, rest);
    FrameIsIntact(noise + Packet(cmd) + rest, f, cmd);
  }

  lemma FrameIsIntact(s: string, f: Frame, cmd: string)
    requires f.In(s) && f.Group(s) == cmd
    requires s[f.hash + 1] == HexDigit(Checksum(cmd) / 16)
    requires s[f.hash + 2] == HexDigit(Checksum(cmd) % 16)
    ensures Intact(s, f)
  {
    hide Checksum, DigitValue, IsHexDigit, HexDigit;
    var high, low := Digit(Checksum(cmd) / 16), Digit(Checksum(cmd) % 16);
  }

  lemma NoFrameWithoutDollar(s: string)
    requires Free('$', s)
    ensures Search(s).None? && Accepted(s) == []
  {
  }

  // Round trip: any commands without '#', with '$'-free noise before, between and
  // after them, are read back exactly, by a peer that checks checksums too, and only the
  // noise after the last is left.
  lemma {:induction false} RoundTrip(items: seq<Item>, tail: string)
    requires forall i :: 0 <= i < |items| ==> Free('$', items[i].noise) && Free('#', items[i].cmd)
    requires Free('$', tail)
    ensures Packets(Stream(items, tail)) == Cmds(items)
    ensures Accepted(Stream(items, tail)) == Cmds(items)
    ensures Residue(Stream(items, tail)) == tail
  {
    if items == [] {
      NoFrameWithoutDollar(tail);
    } else {
      RoundTrip(items[1..], tail);
      FirstPacket(items[0].noise, items[0].cmd, Stream(items[1..], tail));
    }
  }

  // No popped packet ever holds a '#'.
  lemma {:induction false} PacketsAreFree(s: string)
    ensures forall i :: 0 <= i < |Packets(s)| ==> Free('#', Packets(s)[i])
    decreases |s|
  {
    match Search(s)
    case None =>
    case Some(f) =>
      PacketsAreFree(s[f.End()..]);
      assert forall i :: 0 < i < |Packets(s)| ==> Packets(s)[i] == Packets(s[f.End()..])[i - 1];
      assert Packets(s)[0] == f.Group(s);
  }

  lemma {:induction false} AcceptedAreFree(s: string)
    ensures forall i :: 0 <= i < |Accepted(s)| ==> Free('#', Accepted(s)[i])
    decreases |s|
  {
    hide Intact;
    match Search(s)
    case None =>
    case Some(f) =>
      AcceptedAreFree(s[f.End()..]);
      assert Free('#', f.Group(s));
  }

  lemma {:induction false} CmdsAt(items: seq<Item>)
    ensures |Cmds(items)| == |items|
    ensures forall i :: 0 <= i < |items| ==> Cmds(items)[i] == items[i].cmd
  {
    if items != [] {
      CmdsAt(items[1..]);
    }
  }

  // For any stream with '$'-free noise, the absence of '#' from every command is
  // exactly what reading back needs.
  lemma ReadBackIff(items: seq<Item>, tail: string)
    requires forall i :: 0 <= i < |items| ==> Free('$', items[i].noise)
    requires Free('$', tail)
    ensures Packets(Stream(items, tail)) == Cmds(items) <==> forall i :: 0 <= i < |items| ==> Free('#', items[i].cmd)
    ensures Accepted(Stream(items, tail)) == Cmds(items) <==> forall i :: 0 <= i < |items| ==> Free('#', items[i].cmd)
  {
    hide Packets, Accepted, Stream, Cmds;
    CmdsAt(items);
    PacketsAreFree(Stream(items, tail));
    AcceptedAreFree(Stream(items, tail));
    if forall i :: 0 <= i < |items| ==> Free('#', items[i].cmd) {
      RoundTrip(items, tail);
    }
  }
}
