// The three library conversions between bytes, text and lines that the grading
// library relies on: ASCII and UTF-8 decoding with the "replace" error handler,
// and str.splitlines.
module Text {
  import opened Basics

  const REPLACEMENT: char := '\U{FFFD}'

  // ---------- ASCII ----------

  function DecodeAscii(s: seq<byte>): (t: string)
    ensures |t| == |s|
    ensures forall i :: 0 <= i < |s| ==> t[i] == if s[i] < 128 then s[i] as char else '\U{FFFD}'
  {
    seq(|s|, i requires 0 <= i < |s| => if s[i] < 128 then s[i] as char else REPLACEMENT)
  }

  predicate IsAscii(t: string) {
    forall i :: 0 <= i < |t| ==> t[i] as int < 128
  }

  function EncodeAscii(t: string): (s: seq<byte>)
    requires IsAscii(t)
    ensures |s| == |t| && forall i :: 0 <= i < |t| ==> s[i] == t[i] as int
  {
    if |t| == 0 then [] else [t[0] as int] + EncodeAscii(t[1..])
  }

  lemma AsciiRoundTrip(t: string)
    requires IsAscii(t)
    ensures DecodeAscii(EncodeAscii(t)) == t
  {
    hide EncodeAscii;
  }

  // Byte-wise decoding cannot tell where one read ended and the next began.
  lemma DecodeAsciiAppend(a: seq<byte>, b: seq<byte>)
    ensures DecodeAscii(a + b) == DecodeAscii(a) + DecodeAscii(b)
  {
  }

  // ---------- UTF-8 ----------

  predicate IsContinuation(b: byte) {
    0x80 <= b < 0xC0
  }

  // The six bits a continuation byte carries.
  function SixBits(b: byte): int {
    b - 0x80
  }

  // The second byte allowed after lead byte b0: the ranges that exclude overlong
  // forms, surrogates and code points above 10FFFF.
  predicate IsSecond(b0: byte, b1: byte) {
    if b0 == 0xE0 then 0xA0 <= b1 < 0xC0
    else if b0 == 0xED then 0x80 <= b1 < 0xA0
    else if b0 == 0xF0 then 0x90 <= b1 < 0xC0
    else if b0 == 0xF4 then 0x80 <= b1 < 0x90
    else IsContinuation(b1)
  }

  // The character decoded first and the number of bytes it takes.  A malformed
  // sequence yields one replacement character for its longest valid prefix.
  function DecodeFirst(s: seq<byte>): (r: (char, nat))
    requires s != []
    ensures 1 <= r.1 <= |s|
  {
    var b0: int := s[0];
    if b0 < 0x80 then (b0 as char, 1)
    else if !(0xC2 <= b0 <= 0xF4) || |s| < 2 || !IsSecond(b0, s[1]) then (REPLACEMENT, 1)
    else if b0 < 0xE0 then (((b0 - 0xC0) * 64 + SixBits(s[1])) as char, 2)
    else if |s| < 3 || !IsContinuation(s[2]) then (REPLACEMENT, 2)
    else if b0 < 0xF0 then (((b0 - 0xE0) * 4096 + SixBits(s[1]) * 64 + SixBits(s[2])) as char, 3)
    else if |s| < 4 || !IsContinuation(s[3]) then (REPLACEMENT, 3)
    else (((b0 - 0xF0) * 262144 + SixBits(s[1]) * 4096 + SixBits(s[2]) * 64 + SixBits(s[3])) as char, 4)
  }

  function DecodeUtf8(s: seq<byte>): string {
    if s == [] then "" else
      var (c, n) := DecodeFirst(s);
      [c] + DecodeUtf8(s[n..])
  }

  lemma DecodeFirstBeforeNewline(a: seq<byte>, b: seq<byte>)
    requires a != []
    ensures DecodeFirst(a + [NEWLINE] + b) == DecodeFirst(a)
  {
    var s := a + [NEWLINE] + b;
    assert s[0] == a[0] && s[|a|] == NEWLINE;
    assert forall i :: 0 <= i < |a| ==> s[i] == a[i];
  }

  // A newline byte always ends the sequence before it, valid or not, so decoding
  // a whole text and decoding its lines one by one agree.
  lemma {:induction false} DecodeUtf8Newline(a: seq<byte>, b: seq<byte>)
    ensures DecodeUtf8(a + [NEWLINE] + b) == DecodeUtf8(a) + "\n" + DecodeUtf8(b)
  {
    hide DecodeFirst;
    var s := a + [NEWLINE] + b;
    if a == [] {
      assert s == [NEWLINE] + b;
      NewlineDecodesFirst(b);
      assert s[1..] == b;
    } else {
      var (c, n) := DecodeFirst(a);
      DecodeFirstBeforeNewline(a, b);
      assert s[n..] == a[n..] + [NEWLINE] + b;
      DecodeUtf8Newline(a[n..], b);
      AppendAssociative([c], DecodeUtf8(a[n..]), "\n");
      AppendAssociative([c], DecodeUtf8(a[n..]) + "\n", DecodeUtf8(b));
    }
  }

  lemma NewlineDecodesFirst(b: seq<byte>)
    ensures DecodeFirst([NEWLINE] + b) == ('\n', 1)
  {
  }

  // The UTF-8 form of a character (RFC 3629, section 3).
  function EncodeChar(c: char): (s: seq<byte>)
    ensures 1 <= |s| <= 4
  {
    var n := c as int;
    if n < 0x80 then [n]
    else if n < 0x800 then [0xC0 + n / 64, 0x80 + n % 64]
    else if n < 0x10000 then [0xE0 + n / 4096, 0x80 + n / 64 % 64, 0x80 + n % 64]
    else [0xF0 + n / 262144, 0x80 + n / 4096 % 64, 0x80 + n / 64 % 64, 0x80 + n % 64]
  }

  function EncodeUtf8(t: string): seq<byte> {
    if |t| == 0 then [] else EncodeChar(t[0]) + EncodeUtf8(t[1..])
  }

  lemma DecodeFirstOfEncoded(c: char, rest: seq<byte>)
    ensures DecodeFirst(EncodeChar(c) + rest) == (c, |EncodeChar(c)|)
  {
    var n := c as int;
    if n < 0x80 {
      assert (EncodeChar(c) + rest)[0] == n;
    } else if n < 0x800 {
      DecodeTwo(c, rest);
    } else if n < 0x10000 {
      DecodeThree(c, rest);
    } else {
      DecodeFour(c, rest);
    }
  }

  lemma DecodeTwo(c: char, rest: seq<byte>)
    requires 0x80 <= c as int < 0x800
    ensures DecodeFirst(EncodeChar(c) + rest) == (c, 2)
  {
    var n := c as int;
    var s := EncodeChar(c) + rest;
    assert s[0] == 0xC0 + n / 64 && s[1] == 0x80 + n % 64;
  }

  lemma DecodeThree(c: char, rest: seq<byte>)
    requires 0x800 <= c as int < 0x10000
    ensures DecodeFirst(EncodeChar(c) + rest) == (c, 3)
  {
    var n := c as int;
    var q, r := n / 64, n % 64;
    assert n / 4096 == q / 64;
    var s := EncodeChar(c) + rest;
    assert s[0] == 0xE0 + q / 64 && s[1] == 0x80 + q % 64 && s[2] == 0x80 + r;
    assert IsSecond(s[0], s[1]);
  }

  lemma DecodeFour(c: char, rest: seq<byte>)
    requires 0x10000 <= c as int
    ensures DecodeFirst(EncodeChar(c) + rest) == (c, 4)
  {
    var n := c as int;
    var q, r := n / 64, n % 64;
    var p := q / 64;
    assert n / 4096 == p && n / 262144 == p / 64;
    var s := EncodeChar(c) + rest;
    assert s[0] == 0xF0 + p / 64 && s[1] == 0x80 + p % 64 && s[2] == 0x80 + q % 64 && s[3] == 0x80 + r;
    assert IsSecond(s[0], s[1]);
  }

  // Well-formed output is decoded without loss.
  lemma {:induction false} Utf8RoundTrip(t: string)
    ensures DecodeUtf8(EncodeUtf8(t)) == t
  {
    hide DecodeFirst, EncodeChar;
    if |t| > 0 {
      var first, rest := EncodeChar(t[0]), EncodeUtf8(t[1..]);
      DecodeFirstOfEncoded(t[0], rest);
      assert (first + rest)[|first|..] == rest;
      Utf8RoundTrip(t[1..]);
    }
  }

  // ---------- malformed UTF-8 ----------

  // The first n bytes begin the UTF-8 form of some character.
  ghost predicate Begins(s: seq<byte>, n: nat) {
    n <= |s| && exists c: char :: n <= |EncodeChar(c)| && s[..n] == EncodeChar(c)[..n]
  }

  // What is decoded first is the character whose UTF-8 form stands there.  If there is
  // none, it is U+FFFD, and it takes the longest part that begins some character's form,
  // or one byte if there is no such part (section 3.9 of the Unicode Standard,
  // "U+FFFD Substitution of Maximal Subparts").
  lemma DecodeFirstIsMaximal(s: seq<byte>)
    requires s != []
    ensures
      var (c, n) := DecodeFirst(s);
      || s[..n] == EncodeChar(c)
      || (&& c == '\U{FFFD}'
          && (forall d: char :: !(EncodeChar(d) <= s))
          && (n == 1 || Begins(s, n))
          && forall m: nat :: n < m ==> !Begins(s, m))
  {
    hide EncodeChar, DecodeFirst;
    var (c, n) := DecodeFirst(s);
    if WellFormedFirst(s) {
      WellFormedIsEncoded(s);
    } else {
      MalformedFirst(s);
      forall m: nat | Begins(s, m)
        ensures m <= n
      {
        var d: char :| m <= |EncodeChar(d)| && s[..m] == EncodeChar(d)[..m];
        EncodedBytes(d, s, m);
      }
      forall d: char | EncodeChar(d) <= s
        ensures false
      {
        EncodedBytes(d, s, |EncodeChar(d)|);
      }
      if n > 1 {
        MalformedBegins(s);
      }
    }
  }

  // How many leading bytes of s can belong to one character: the lead byte must be one,
  // and each following byte one that may follow it.
  predicate Follows(s: seq<byte>, m: nat) {
    && 1 <= m <= |s| && m <= 4
    && (m >= 2 ==> 0xC2 <= s[0] <= 0xF4 && IsSecond(s[0], s[1]))
    && (m >= 3 ==> s[0] >= 0xE0 && IsContinuation(s[2]))
    && (m == 4 ==> s[0] >= 0xF0 && IsContinuation(s[3]))
  }

  predicate WellFormedFirst(s: seq<byte>)
    requires s != []
  {
    || s[0] < 0x80
    || (s[0] < 0xE0 && Follows(s, 2))
    || (s[0] < 0xF0 && Follows(s, 3))
    || Follows(s, 4)
  }

  lemma WellFormedIsEncoded(s: seq<byte>)
    requires s != [] && WellFormedFirst(s)
    ensures var (c, n) := DecodeFirst(s); s[..n] == EncodeChar(c)
  {
    hide EncodeChar;
    if s[0] < 0x80 {
      assert s[..1] == [s[0]];
      OneEncoded(s[0]);
    } else if s[0] < 0xE0 {
      assert s[..2] == [s[0], s[1]];
      TwoEncoded(s[0] - 0xC0, SixBits(s[1]));
    } else if s[0] < 0xF0 {
      assert s[..3] == [s[0], s[1], s[2]];
      ThreeEncoded(s[0] - 0xE0, SixBits(s[1]), SixBits(s[2]));
    } else {
      assert s[..4] == [s[0], s[1], s[2], s[3]];
      FourEncoded(s[0] - 0xF0, SixBits(s[1]), SixBits(s[2]), SixBits(s[3]));
    }
  }

  lemma OneEncoded(a: nat)
    requires a < 0x80
    ensures EncodeChar(a as char) == [a]
  {
  }

  lemma TwoEncoded(a: nat, b: nat)
    requires 2 <= a < 32 && b < 64
    ensures EncodeChar((a * 64 + b) as char) == [0xC0 + a, 0x80 + b]
  {
  }

  lemma ThreeDigits(a: nat, b: nat, c: nat)
    requires b < 64 && c < 64
    ensures
      var n := a * 4096 + b * 64 + c;
      n / 4096 == a && n / 64 % 64 == b && n % 64 == c
  {
    var n := a * 4096 + b * 64 + c;
    assert n / 64 == a * 64 + b;
  }

  lemma ThreeEncoded(a: nat, b: nat, c: nat)
    requires a < 16 && b < 64 && c < 64
    requires a == 0 ==> b >= 0x20
    requires a == 13 ==> b < 0x20
    ensures EncodeChar((a * 4096 + b * 64 + c) as char) == [0xE0 + a, 0x80 + b, 0x80 + c]
  {
    ThreeDigits(a, b, c);
  }

  lemma FourDigits(a: nat, b: nat, c: nat, d: nat)
    requires b < 64 && c < 64 && d < 64
    ensures
      var n := a * 262144 + b * 4096 + c * 64 + d;
      n / 262144 == a && n / 4096 % 64 == b && n / 64 % 64 == c && n % 64 == d
  {
    var n := a * 262144 + b * 4096 + c * 64 + d;
    assert n / 64 == a * 4096 + b * 64 + c;
    ThreeDigits(a, b, c);
    assert n / 4096 == n / 64 / 64 && n / 262144 == n / 64 / 4096;
  }

  lemma FourEncoded(a: nat, b: nat, c: nat, d: nat)
    requires a < 5 && b < 64 && c < 64 && d < 64
    requires a == 0 ==> b >= 0x10
    requires a == 4 ==> b < 0x10
    ensures EncodeChar((a * 262144 + b * 4096 + c * 64 + d) as char) == [0xF0 + a, 0x80 + b, 0x80 + c, 0x80 + d]
  {
    FourDigits(a, b, c, d);
  }

  lemma MalformedFirst(s: seq<byte>)
    requires s != [] && !WellFormedFirst(s)
    ensures
      var (c, n) := DecodeFirst(s);
      c == '\U{FFFD}' && s[0] >= 0x80 && (n > 1 ==> Follows(s, n)) && !Follows(s, n + 1)
  {
  }

  // The first m bytes of a character's UTF-8 form follow each other, and all of them
  // are well formed.
  lemma EncodedBytes(d: char, s: seq<byte>, m: nat)
    requires m <= |s| && m <= |EncodeChar(d)| && s[..m] == EncodeChar(d)[..m]
    ensures m >= 1 ==> s[0] < 0x80 || Follows(s, m)
    ensures m == |EncodeChar(d)| ==> WellFormedFirst(s)
    ensures m == 1 || m == 0 || s[0] >= 0x80
  {
    var e := EncodeChar(d);
    assert forall i :: 0 <= i < m ==> s[i] == s[..m][i] == e[i];
    EncodedFollows(d);
  }

  lemma EncodedFollows(d: char)
    ensures
      var e := EncodeChar(d);
      if e[0] < 0x80 then |e| == 1 else
        && Follows(e, |e|)
        && (|e| == 2 <==> e[0] < 0xE0) && (|e| == 4 <==> e[0] >= 0xF0) && |e| >= 2
  {
    var n := d as int;
    if 0x800 <= n < 0x10000 {
      var q := n / 64;
      assert n / 4096 == q / 64;
    } else if 0x10000 <= n {
      var q := n / 64;
      var p := q / 64;
      assert n / 4096 == p && n / 262144 == p / 64;
    }
  }

  // A part that can belong to a character does begin one: the missing bytes can be
  // filled in.
  lemma MalformedBegins(s: seq<byte>)
    requires s != [] && !WellFormedFirst(s) && DecodeFirst(s).1 > 1
    ensures Begins(s, DecodeFirst(s).1)
  {
    MalformedFirst(s);
    var n := DecodeFirst(s).1;
    var rest: seq<byte> := [0x80, 0x80];
    var t := s[..n] + rest;
    assert forall i :: 0 <= i < n ==> t[i] == s[i];
    WellFormedIsEncoded(t);
    var c := DecodeFirst(t).0;
    assert EncodeChar(c)[..n] == s[..n];
  }

  // ---------- str.splitlines ----------

  predicate IsBreak(c: char) {
    || '\U{000A}' <= c <= '\U{000D}'
    || '\U{001C}' <= c <= '\U{001E}'
    || c == '\U{0085}'
    || c == '\U{2028}'
    || c == '\U{2029}'
  }

  predicate OneLine(t: string) {
    forall c :: c in t ==> !IsBreak(c)
  }

  // The line breaks are these ten characters and no others.
  lemma BreakCodePoints(c: char)
    ensures IsBreak(c) <==> c as int in {10, 11, 12, 13, 28, 29, 30, 133, 8232, 8233}
  {
  }

  predicate Printable(t: string) {
    forall i :: 0 <= i < |t| ==> ' ' <= t[i] <= '~'
  }

  lemma PrintableIsOneLine(t: string)
    requires Printable(t)
    ensures OneLine(t)
  {
  }

  // Index of the first line break, or |t|.
  function FirstBreak(t: string, from: nat): (k: nat)
    requires from <= |t|
    ensures from <= k <= |t|
    ensures k < |t| ==> IsBreak(t[k])
    ensures forall j :: from <= j < k ==> !IsBreak(t[j])
    decreases |t| - from
  {
    if from == |t| || IsBreak(t[from]) then from else FirstBreak(t, from + 1)
  }

  // How many characters the break at k takes: "\r\n" counts as one break.
  function BreakWidth(t: string, k: nat): (w: nat)
    requires k < |t|
    ensures 1 <= w <= |t| - k
  {
    if t[k] == '\r' && k + 1 < |t| && t[k + 1] == '\n' then 2 else 1
  }

  function SplitLines(t: string): (lines: seq<string>)
    decreases |t|
  {
    if |t| == 0 then []
    else
      var k := FirstBreak(t, 0);
      if k == |t| then [t] else [t[..k]] + SplitLines(t[k + BreakWidth(t, k)..])
  }

  // The three equations that determine splitlines: a last line without a break, a
  // line before "\r\n", and a line before any other break.
  lemma SplitLinesEquations(l: string, c: char, rest: string)
    requires OneLine(l)
    ensures SplitLines(l) == if |l| == 0 then [] else [l]
    ensures SplitLines(l + "\r\n" + rest) == [l] + SplitLines(rest)
    ensures IsBreak(c) && !(c == '\r' && |rest| > 0 && rest[0] == '\n') ==>
      SplitLines(l + [c] + rest) == [l] + SplitLines(rest)
  {
    hide IsBreak, SplitLines;
    assert forall i :: 0 <= i < |l| ==> l[i] in l;
    SplitLastLine(l);
    assert IsBreak('\r') by {
      CarriageReturnBreaks();
    }
    var t := l + "\r\n" + rest;
    FirstBreakUnique(t, |l|);
    SplitLinesUnfold(t, l, rest);
    if IsBreak(c) && !(c == '\r' && |rest| > 0 && rest[0] == '\n') {
      FirstBreakUnique(l + [c] + rest, |l|);
      SplitLinesUnfold(l + [c] + rest, l, rest);
    }
  }

  // These lines, each ended by a newline.
  function Ended(lines: seq<string>): string {
    if lines == [] then "" else lines[0] + "\n" + Ended(lines[1..])
  }

  // Printable lines are read back whatever they hold: spaces do not break them.
  lemma {:induction false} PrintableLinesAreSplit(lines: seq<string>, last: string)
    requires forall i :: 0 <= i < |lines| ==> Printable(lines[i])
    requires Printable(last)
    ensures SplitLines(Ended(lines) + last) == lines + if last == "" then [] else [last]
  {
    hide IsBreak, SplitLines, OneLine, Printable;
    if lines == [] {
      assert Ended(lines) + last == last;
      PrintableIsOneLine(last);
      SplitLinesEquations(last, '\n', "");
    } else {
      var rest := Ended(lines[1..]) + last;
      PrintableIsOneLine(lines[0]);
      NewlineBreaks();
      SplitLinesEquations(lines[0], '\n', rest);
      PrintableLinesAreSplit(lines[1..], last);
      assert Ended(lines) + last == lines[0] + ['\n'] + rest;
      assert lines == [lines[0]] + lines[1..];
    }
  }

  lemma NewlineBreaks()
    ensures IsBreak('\n')
  {
  }

  lemma CarriageReturnBreaks()
    ensures IsBreak('\r')
  {
  }

  lemma SplitLastLine(l: string)
    requires OneLine(l)
    ensures SplitLines(l) == if |l| == 0 then [] else [l]
  {
    assert forall i :: 0 <= i < |l| ==> l[i] in l;
  }

  lemma {:induction false} SplitLinesAreUnbroken(t: string)
    ensures forall l :: l in SplitLines(t) ==> OneLine(l)
    decreases |t|
  {
    if t != "" {
      var k := FirstBreak(t, 0);
      if k < |t| {
        SplitLinesAreUnbroken(t[k + BreakWidth(t, k)..]);
      }
    }
  }

  // A text that stops right after a newline has finished all of its lines.
  lemma {:induction false} SplitLinesAppend(u: string, w: string)
    requires |u| == 0 || u[|u| - 1] == '\n'
    ensures SplitLines(u + w) == SplitLines(u) + SplitLines(w)
    decreases |u|
  {
    if |u| == 0 {
      assert u + w == w;
    } else {
      var n := FirstLineAppend(u, w);
      SplitLinesAppend(u[n..], w);
      SplitLinesUnfold(u, u[..FirstBreak(u, 0)], u[n..]);
      SplitLinesUnfold(u + w, u[..FirstBreak(u, 0)], u[n..] + w);
      AppendAssociative([u[..FirstBreak(u, 0)]], SplitLines(u[n..]), SplitLines(w));
    }
  }

  lemma SplitLinesUnfold(t: string, first: string, rest: string)
    requires FirstBreak(t, 0) < |t|
    requires first == t[..FirstBreak(t, 0)]
    requires rest == t[FirstBreak(t, 0) + BreakWidth(t, FirstBreak(t, 0))..]
    ensures SplitLines(t) == [first] + SplitLines(rest)
  {
  }

  lemma FirstLineAppend(u: string, w: string) returns (n: nat)
    requires u != "" && u[|u| - 1] == '\n'
    ensures FirstBreak(u, 0) < n <= |u|
    ensures n == FirstBreak(u, 0) + BreakWidth(u, FirstBreak(u, 0))
    ensures FirstBreak(u + w, 0) == FirstBreak(u, 0)
    ensures BreakWidth(u + w, FirstBreak(u, 0)) == BreakWidth(u, FirstBreak(u, 0))
    ensures (u + w)[..FirstBreak(u, 0)] == u[..FirstBreak(u, 0)]
    ensures (u + w)[n..] == u[n..] + w
    ensures |u[n..]| == 0 || u[n..][|u[n..]| - 1] == '\n'
  {
    var k := FirstBreak(u, 0);
    assert k < |u| by {
      assert IsBreak(u[|u| - 1]);
    }
    FirstBreakUnique(u + w, k);
    n := k + BreakWidth(u, k);
  }

  lemma FirstBreakUnique(t: string, k: nat)
    requires k < |t| && IsBreak(t[k])
    requires forall j :: 0 <= j < k ==> !IsBreak(t[j])
    ensures FirstBreak(t, 0) == k
  {
  }

  // A line l that stands between a line start and a newline is one of the lines
  // of the text exactly when it holds none of the other line breaks.
  lemma CompletedLineIsSplit(u: string, l: string, v: string)
    requires |u| == 0 || u[|u| - 1] == '\n'
    ensures l in SplitLines(u + l + "\n" + v) <==> OneLine(l)
  {
    SplitLinesAreUnbroken(u + l + "\n" + v);
    if OneLine(l) {
      var w := l + "\n" + v;
      assert u + l + "\n" + v == u + w;
      SplitLinesAppend(u, w);
      FirstBreakUnique(w, |l|);
      assert w[..|l|] == l;
      assert l == SplitLines(w)[0];
      assert l == SplitLines(u + w)[|SplitLines(u)|];
    }
  }
}
