// Newline-terminated lines of a byte stream.
module Lines {
  import opened Basics

  predicate NewlineFree(s: seq<byte>) {
    forall i :: 0 <= i < |s| ==> s[i] != NEWLINE
  }

  predicate AllNewlineFree(lines: seq<seq<byte>>) {
    forall i :: 0 <= i < |lines| ==> NewlineFree(lines[i])
  }

  // The completed lines of s, and the text after the last newline.
  function Completed(s: seq<byte>): (lines: seq<seq<byte>>)
    ensures AllNewlineFree(lines)
    decreases |s|
  {
    var k := Find(s, NEWLINE, 0);
    if k == |s| then [] else [s[..k]] + Completed(s[k + 1..])
  }

  function Tail(s: seq<byte>): (rest: seq<byte>)
    ensures NewlineFree(rest)
    decreases |s|
  {
    var k := Find(s, NEWLINE, 0);
    if k == |s| then s else Tail(s[k + 1..])
  }

  function Unlines(lines: seq<seq<byte>>): seq<byte> {
    if lines == [] then [] else lines[0] + [NEWLINE] + Unlines(lines[1..])
  }

  lemma {:induction false} UnlinesSnoc(lines: seq<seq<byte>>, last: seq<byte>)
    ensures Unlines(lines + [last]) == Unlines(lines) + last + [NEWLINE]
  {
    if lines == [] {
      assert (lines + [last])[1..] == [];
    } else {
      assert (lines + [last])[1..] == lines[1..] + [last];
      UnlinesSnoc(lines[1..], last);
    }
  }

  lemma UnlinesCons(first: seq<byte>, lines: seq<seq<byte>>)
    ensures Unlines([first] + lines) == first + [NEWLINE] + Unlines(lines)
  {
    assert ([first] + lines)[1..] == lines;
  }

  lemma UnlinesOfNone()
    ensures Unlines([]) == []
  {
  }

  // Splitting loses nothing.
  lemma {:induction false} UnlinesOfCompleted(s: seq<byte>)
    ensures Unlines(Completed(s)) + Tail(s) == s
    decreases |s|
  {
    hide Unlines, Find;
    var k := Find(s, NEWLINE, 0);
    if k == |s| {
      UnlinesOfNone();
    } else {
      var line, rest := s[..k], s[k + 1..];
      UnlinesOfCompleted(rest);
      UnlinesCons(line, Completed(rest));
      AppendAssociative(line + [NEWLINE], Unlines(Completed(rest)), Tail(rest));
      assert s == line + [NEWLINE] + rest;
    }
  }

  // Completed and Tail are the only way to cut a text into newline-free lines: any
  // lines that precede a rest are the first completed lines of the whole.
  lemma {:induction false} CompletedUnique(lines: seq<seq<byte>>, rest: seq<byte>)
    requires AllNewlineFree(lines)
    ensures Completed(Unlines(lines) + rest) == lines + Completed(rest)
    ensures Tail(Unlines(lines) + rest) == Tail(rest)
  {
    hide Completed, Tail;
    if lines == [] {
      assert Unlines(lines) + rest == rest;
    } else {
      var more := Unlines(lines[1..]) + rest;
      assert Unlines(lines) + rest == lines[0] + [NEWLINE] + more;
      CompletedCons(lines[0], more);
      CompletedUnique(lines[1..], rest);
      AppendAssociative([lines[0]], lines[1..], Completed(rest));
      assert [lines[0]] + lines[1..] == lines;
    }
  }

  lemma CompletedCons(line: seq<byte>, rest: seq<byte>)
    requires NewlineFree(line)
    ensures Completed(line + [NEWLINE] + rest) == [line] + Completed(rest)
    ensures Tail(line + [NEWLINE] + rest) == Tail(rest)
  {
    hide Find;
    var s, k := line + [NEWLINE] + rest, |line|;
    assert s[k] == NEWLINE;
    assert forall j :: 0 <= j < k ==> s[j] == line[j];
    assert Find(s, NEWLINE, 0) == k;
    assert s[..k] == line && s[k + 1..] == rest;
  }

  lemma QuietText(s: seq<byte>)
    requires NewlineFree(s)
    ensures Completed(s) == [] && Tail(s) == s
  {
  }

  // Later bytes never change a completed line.
  lemma CompletedAppend(a: seq<byte>, b: seq<byte>)
    ensures Completed(a + b) == Completed(a) + Completed(Tail(a) + b)
    ensures Tail(a + b) == Tail(Tail(a) + b)
  {
    UnlinesOfCompleted(a);
    CompletedUnique(Completed(a), Tail(a) + b);
    AppendAssociative(Unlines(Completed(a)), Tail(a), b);
  }

  // Someone who starts listening after `before` hears the rest of the line under way
  // first, and then true lines.
  lemma CompletedAfter(before: seq<byte>, heard: seq<byte>)
    requires Completed(heard) != []
    ensures Completed(before + heard) ==
      Completed(before) + ([Tail(before) + Completed(heard)[0]] + Completed(heard)[1..])
  {
    hide Completed, Tail, Unlines;
    var lines, rest := Completed(heard), Tail(heard);
    var joined := [Tail(before) + lines[0]] + lines[1..];
    CompletedAppend(before, heard);
    UnlinesOfCompleted(heard);
    UnlinesCons(lines[0], lines[1..]);
    UnlinesCons(Tail(before) + lines[0], lines[1..]);
    assert lines == [lines[0]] + lines[1..];
    assert Tail(before) + heard == Unlines(joined) + rest;
    CompletedUnique(joined, rest);
    QuietText(rest);
  }

  lemma {:induction false} CompletedShorter(s: seq<byte>, i: nat)
    requires i < |Completed(s)|
    ensures |Completed(s)[i]| < |s|
    decreases |s|
  {
    var k := Find(s, NEWLINE, 0);
    if i > 0 {
      CompletedShorter(s[k + 1..], i - 1);
    }
  }

  // Someone who starts listening after `before` sees only true lines of the whole
  // stream, whatever follows, exactly when `before` ends at a line boundary.
  lemma ListenerSeesTrueLinesIff(before: seq<byte>)
    ensures
      (forall heard: seq<byte>, l: seq<byte> :: l in Completed(heard) ==> l in Completed(before + heard))
      <==> Tail(before) == []
  {
    if Tail(before) == [] {
      forall heard: seq<byte>, l: seq<byte> | l in Completed(heard)
        ensures l in Completed(before + heard)
      {
        CompletedAppend(before, heard);
        assert Tail(before) + heard == heard;
      }
    } else {
      MidLineListenerIsMisled(before);
    }
  }

  lemma MidLineListenerIsMisled(before: seq<byte>)
    requires Tail(before) != []
    ensures exists heard: seq<byte>, l: seq<byte> :: l in Completed(heard) && l !in Completed(before + heard)
  {
    var l: seq<byte> := seq<byte>(|before| + 1, _ => 65);
    var heard := l + [NEWLINE];
    SingleCompleted(l);
    SingleCompleted(Tail(before) + l);
    CompletedAppend(before, heard);
    AppendAssociative(Tail(before), l, [NEWLINE]);
    forall i | 0 <= i < |Completed(before)|
      ensures Completed(before)[i] != l
    {
      CompletedShorter(before, i);
    }
    assert Completed(before + heard) == Completed(before) + [Tail(before) + l];
    assert |Tail(before) + l| > |l|;
    assert l in Completed(heard) && l !in Completed(before + heard);
  }

  lemma SingleCompleted(l: seq<byte>)
    requires NewlineFree(l)
    ensures Completed(l + [NEWLINE]) == [l]
  {
    assert Unlines([l]) == l + [NEWLINE] by {
      assert [l][1..] == [];
    }
    CompletedUnique([l], []);
    assert l + [NEWLINE] + [] == l + [NEWLINE];
  }
}
