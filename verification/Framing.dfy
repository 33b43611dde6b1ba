// What a regular expression accepts, for the one pattern the packet framer uses.
module Regexps {
  datatype Regexp =
    | Class(member: char -> bool)
    | Cat(first: Regexp, second: Regexp)
    | Star(body: Regexp)

  ghost predicate Accepts(r: Regexp, s: string)
    decreases r, |s|
  {
    match r
    case Class(member) => |s| == 1 && member(s[0])
    case Cat(first, second) =>
      exists k :: 0 <= k <= |s| && Accepts(first, s[..k]) && Accepts(second, s[k..])
    case Star(body) =>
      |s| == 0 || exists k :: 0 < k <= |s| && Accepts(body, s[..k]) && Accepts(r, s[k..])
  }

  // A starred class accepts the texts all of whose characters are in the class.
  lemma {:induction false} AcceptsStarClass(member: char -> bool, s: string)
    ensures Accepts(Star(Class(member)), s) <==> forall i :: 0 <= i < |s| ==> member(s[i])
    decreases |s|
  {
    if |s| > 0 {
      AcceptsStarClass(member, s[1..]);
      assert s[..1] == [s[0]];
      if Accepts(Star(Class(member)), s) {
        var k :| 0 < k <= |s| && Accepts(Class(member), s[..k]) && Accepts(Star(Class(member)), s[k..]);
        assert k == 1;
        assert forall i :: 1 <= i < |s| ==> s[i] == s[1..][i - 1];
      }
      if forall i :: 0 <= i < |s| ==> member(s[i]) {
        assert Accepts(Class(member), s[..1]);
      }
    }
  }

  lemma AcceptsCat(first: Regexp, second: Regexp, s: string)
    ensures Accepts(Cat(first, second), s) <==>
      exists k :: 0 <= k <= |s| && Accepts(first, s[..k]) && Accepts(second, s[k..])
  {
  }

  lemma AcceptsCatClass(member: char -> bool, second: Regexp, s: string)
    ensures Accepts(Cat(Class(member), second), s) <==> |s| > 0 && member(s[0]) && Accepts(second, s[1..])
  {
    if Accepts(Cat(Class(member), second), s) {
      var k :| 0 <= k <= |s| && Accepts(Class(member), s[..k]) && Accepts(second, s[k..]);
      assert k == 1;
    }
    if |s| > 0 && member(s[0]) && Accepts(second, s[1..]) {
      assert Accepts(Class(member), s[..1]);
    }
  }
}

// Frames of the GDB Remote Serial Protocol ("Overview" section of the "GDB Remote
// Serial Protocol" appendix of the GDB manual): how the grading library finds them
// in a text, and what its receive loop pops from a buffer.
module Framing {
  import opened Basics
  import opened Regexps

  predicate IsAlnum(c: char) {
    '0' <= c <= '9' || 'a' <= c <= 'z' || 'A' <= c <= 'Z'
  }

  // "#[0-9a-zA-Z]{2}" and the whole framing pattern "\$([^#]*)#[0-9a-zA-Z]{2}".
  ghost function Alnum(): char -> bool {
    c => '0' <= c <= '9' || 'a' <= c <= 'z' || 'A' <= c <= 'Z'
  }

  ghost function Trailer(): Regexp {
    Cat(Class(c => c == '#'), Cat(Class(Alnum()), Class(Alnum())))
  }

  ghost function Payload(): Regexp {
    Star(Class(c => c != '#'))
  }

  ghost function Pattern(): Regexp {
    Cat(Class(c => c == '$'), Cat(Payload(), Trailer()))
  }

  // A frame of s: its '$' stands at start and its '#' at hash.
  datatype Frame = Frame(start: nat, hash: nat) {
    predicate In(s: string) {
      && start < hash
      && hash + 2 < |s|
      && s[start] == '$'
      && (forall j :: start < j < hash ==> s[j] != '#')
      && s[hash] == '#'
      && IsAlnum(s[hash + 1])
      && IsAlnum(s[hash + 2])
    }

    function End(): nat {
      hash + 3
    }

    function Group(s: string): string
      requires In(s)
    {
      s[start + 1..hash]
    }
  }

  // ---------- the frames are what the pattern matches ----------

  lemma AcceptsTrailer(s: string)
    ensures Accepts(Trailer(), s) <==> IsTrailer(s)
  {
    var alnum := Class(Alnum());
    AcceptsCatClass(c => c == '#', Cat(alnum, alnum), s);
    if |s| > 0 {
      AcceptsCatClass(Alnum(), alnum, s[1..]);
    }
  }

  predicate IsTrailer(s: string) {
    |s| == 3 && s[0] == '#' && IsAlnum(s[1]) && IsAlnum(s[2])
  }

  predicate IsBody(u: string) {
    && |u| >= 3
    && (forall j :: 0 <= j < |u| - 3 ==> u[j] != '#')
    && IsTrailer(u[|u| - 3..])
  }

  lemma AcceptsBody(u: string)
    ensures Accepts(Cat(Payload(), Trailer()), u) <==> IsBody(u)
  {
    AcceptsCat(Payload(), Trailer(), u);
    forall k | 0 <= k <= |u|
      ensures Accepts(Trailer(), u[k..]) <==> IsTrailer(u[k..])
      ensures Accepts(Payload(), u[..k]) <==> forall j :: 0 <= j < k ==> u[j] != '#'
    {
      AcceptsTrailer(u[k..]);
      AcceptsStarClass(c => c != '#', u[..k]);
      assert forall j :: 0 <= j < k ==> u[j] == u[..k][j];
    }
    if IsBody(u) {
      assert Accepts(Payload(), u[..|u| - 3]);
    }
  }

  // The pattern accepts s[i..e] exactly when a frame starts at i and ends at e.  At
  // a given start there is thus at most one match, with one group, and the order in
  // which a regexp engine tries alternatives does not matter.
  lemma AcceptsPattern(s: string, i: nat, e: nat)
    requires i <= e <= |s|
    ensures Accepts(Pattern(), s[i..e]) <==> e >= 3 && Frame(i, e - 3).In(s)
  {
    AcceptsCatClass(c => c == '$', Cat(Payload(), Trailer()), s[i..e]);
    if i < e {
      assert s[i..e][1..] == s[i + 1..e];
      AcceptsBody(s[i + 1..e]);
      BodyIsFrame(s, i, e);
    }
  }

  lemma BodyIsFrame(s: string, i: nat, e: nat)
    requires i < e <= |s|
    ensures s[i] == '$' && IsBody(s[i + 1..e]) <==> e >= 3 && Frame(i, e - 3).In(s)
  {
    var u := s[i + 1..e];
    assert forall j :: i < j < e ==> s[j] == u[j - i - 1];
    assert forall j :: 0 <= j < |u| ==> u[j] == s[j + i + 1];
  }

  // ---------- searching ----------

  // The only candidate for a frame at i ends at the first '#' after i.
  function FrameAt(s: string, i: nat): (f: Frame)
    requires i < |s|
    ensures f.start == i
  {
    Frame(i, Find(s, '#', i + 1))
  }

  // re.search: the leftmost frame at or after i.
  function SearchFrom(s: string, i: nat): (r: Option<Frame>)
    requires i <= |s|
    ensures r.Some? ==> r.value.In(s) && i <= r.value.start
    decreases |s| - i
  {
    if i == |s| then None
    else if FrameAt(s, i).In(s) then Some(FrameAt(s, i))
    else SearchFrom(s, i + 1)
  }

  function Search(s: string): (r: Option<Frame>)
    ensures r.Some? ==> r.value.In(s)
  {
    SearchFrom(s, 0)
  }

  ghost predicate MatchesPart(s: string, i: nat, e: nat) {
    i <= e <= |s| && Accepts(Pattern(), s[i..e])
  }

  ghost predicate Leftmost(s: string, i: nat, r: Option<Frame>) {
    forall g: Frame :: g.In(s) && i <= g.start ==> r.Some? && r.value.start <= g.start
  }

  lemma {:induction false} SearchFromIsLeftmost(s: string, i: nat)
    requires i <= |s|
    ensures Leftmost(s, i, SearchFrom(s, i))
    decreases |s| - i
  {
    if i < |s| && !FrameAt(s, i).In(s) {
      SearchFromIsLeftmost(s, i + 1);
      forall g: Frame | g.In(s) && i <= g.start
        ensures SearchFrom(s, i).Some? && SearchFrom(s, i).value.start <= g.start
      {
        if g.start == i {
          FrameAtUnique(s, g);
        }
      }
    }
  }

  lemma FrameAtUnique(s: string, g: Frame)
    requires g.In(s)
    ensures FrameAt(s, g.start) == g
  {
    assert s[g.hash] == '#';
  }

  lemma SearchIsLeftmost(s: string)
    ensures Leftmost(s, 0, Search(s))
  {
    SearchFromIsLeftmost(s, 0);
  }

  // The search agrees with the regular expression: it succeeds iff some part of
  // the text is accepted, and then it reports the leftmost accepted part, which is
  // the only accepted part that starts there.
  lemma SearchIsLeftmostMatch(s: string)
    ensures Search(s).None? ==> forall i: nat, e: nat :: !MatchesPart(s, i, e)
    ensures Search(s).Some? ==> MatchesPart(s, Search(s).value.start, Search(s).value.End())
    ensures Search(s).Some? ==> forall i: nat, e: nat :: MatchesPart(s, i, e) ==> Search(s).value.start <= i
    ensures Search(s).Some? ==>
      forall e: nat :: MatchesPart(s, Search(s).value.start, e) ==> e == Search(s).value.End()
  {
    SearchIsLeftmost(s);
    forall i: nat, e: nat
      ensures MatchesPart(s, i, e) <==> e >= 3 && i <= e <= |s| && Frame(i, e - 3).In(s)
    {
      if i <= e <= |s| {
        AcceptsPattern(s, i, e);
      }
    }
    if Search(s).Some? {
      var f := Search(s).value;
      assert Frame(f.start, f.End() - 3) == f;
      forall e: nat | MatchesPart(s, f.start, e)
        ensures e == f.End()
      {
        FrameUnique(s, f, Frame(f.start, e - 3));
      }
    }
  }

  lemma FrameUnique(s: string, f: Frame, g: Frame)
    requires f.In(s) && g.In(s) && f.start == g.start
    ensures f == g
  {
  }

  lemma SearchUnique(s: string, f: Frame)
    requires f.In(s)
    requires forall g: Frame :: g.In(s) ==> f.start <= g.start
    ensures Search(s) == Some(f)
  {
    SearchIsLeftmost(s);
    FrameUnique(s, f, Search(s).value);
  }

  // A leftmost match, once present, is unchanged by appending text.
  lemma SearchStable(a: string, b: string)
    requires Search(a).Some?
    ensures Search(a + b) == Search(a)
  {
    SearchIsLeftmost(a);
    var f := Search(a).value;
    assert f.In(a + b);
    forall g: Frame | g.In(a + b)
      ensures f.start <= g.start
    {
      if g.start < f.start {
        assert g.hash <= f.hash by {
          assert (a + b)[f.hash] == '#';
        }
        assert forall j :: g.start < j < g.hash ==> a[j] == (a + b)[j];
        assert g.In(a);
      }
    }
    SearchUnique(a + b, f);
  }

  // ---------- popping ----------

  // The groups of the frames found one after another, and the text left over.
  function Packets(s: string): (pkts: seq<string>)
    decreases |s|
  {
    match Search(s)
    case None => []
    case Some(f) => [f.Group(s)] + Packets(s[f.End()..])
  }

  function Residue(s: string): (rest: string)
    ensures Search(rest).None?
    decreases |s|
  {
    match Search(s)
    case None => s
    case Some(f) => Residue(s[f.End()..])
  }

  // Chunk-boundary independence: what was extracted from the first part, followed by
  // what the leftover and the second part give, is what the whole gives.
  lemma {:induction false} PacketsAppend(a: string, b: string)
    ensures Packets(a + b) == Packets(a) + Packets(Residue(a) + b)
    ensures Residue(a + b) == Residue(Residue(a) + b)
    decreases |a|
  {
    match Search(a)
    case None =>
    case Some(f) =>
      SearchStable(a, b);
      assert (a + b)[f.End()..] == a[f.End()..] + b;
      assert f.Group(a + b) == f.Group(a);
      PacketsAppend(a[f.End()..], b);
      AppendAssociative([f.Group(a)], Packets(a[f.End()..]), Packets(Residue(a[f.End()..]) + b));
  }

  // A breakpoint stop reply.
  predicate IsStop(pkt: string)
    ensures IsStop(pkt) <==> |pkt| >= 3 && pkt[0] == 'T' && pkt[1] == '0' && pkt[2] == '5'
  {
    "T05" <= pkt
  }

  // Leaving the receive loop: the packets popped, the buffer kept, and whether a
  // breakpoint reply ended the loop.
  datatype Popped = Popped(packets: seq<string>, rest: string, stopped: bool)

  predicate NoStop(pkts: seq<string>) {
    forall i :: 0 <= i < |pkts| ==> !IsStop(pkts[i])
  }

  function Pop(s: string): (p: Popped)
    ensures !p.stopped ==> NoStop(p.packets)
    ensures p.stopped ==>
      var last := |p.packets| - 1;
      last >= 0 && IsStop(p.packets[last]) && NoStop(p.packets[..last])
    decreases |s|
  {
    match Search(s)
    case None => Popped([], s, false)
    case Some(f) =>
      var group, rest := f.Group(s), s[f.End()..];
      if IsStop(group) then Popped([group], rest, true)
      else
        var p := Pop(rest);
        p.(packets := [group] + p.packets)
  }

  // No packet is lost or repeated by leaving the loop early: the popped packets are
  // the first ones of the text and the buffer still yields all others.  Without a
  // breakpoint reply the loop pops them all.
  lemma {:induction false} PopConserves(s: string)
    ensures Packets(s) == Pop(s).packets + Packets(Pop(s).rest)
    ensures Residue(s) == Residue(Pop(s).rest)
    ensures |Pop(s).rest| + 4 * |Pop(s).packets| <= |s|
    decreases |s|
  {
    match Search(s)
    case None =>
    case Some(f) =>
      var rest := s[f.End()..];
      if !IsStop(f.Group(s)) {
        PopConserves(rest);
        AppendAssociative([f.Group(s)], Pop(rest).packets, Packets(Pop(rest).rest));
      }
  }

  // The loop is left by a breakpoint reply exactly when the buffer holds one; if it
  // holds none, every packet is popped and no frame remains.
  lemma PopStopsIffStopReply(s: string)
    ensures Pop(s).stopped <==> !NoStop(Packets(s))
    ensures !Pop(s).stopped ==> Pop(s).packets == Packets(s) && Pop(s).rest == Residue(s)
  {
    PopConserves(s);
    var p := Pop(s);
    if p.stopped {
      assert Packets(s)[|p.packets| - 1] == p.packets[|p.packets| - 1];
    } else {
      PopUntilEmpty(s);
    }
  }

  lemma {:induction false} PopUntilEmpty(s: string)
    requires !Pop(s).stopped
    ensures Pop(s).packets == Packets(s)
    ensures Pop(s).rest == Residue(s)
    decreases |s|
  {
    match Search(s)
    case None =>
    case Some(f) => PopUntilEmpty(s[f.End()..]);
  }
}
