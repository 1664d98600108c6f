/** What readUntilDot returns, in lines; and the round trip of dot-stuffing (section 4.5.2 of RFC 5321). */
module DotStuffing {
  import opened Text
  import opened Crlf
  import opened DotReader

  // ---------------------------------------------------------------- the line automaton

  datatype Q = LineStart | Dot | DotCr | Mid | Cr

  predicate Bare(q: Q, c: char) { if c == '\n' then q != DotCr && q != Cr else q == DotCr || q == Cr }
  predicate Final(q: Q, c: char) { q == DotCr && c == '\n' }

  function Step(q: Q, c: char): Q {
    if c == '\n' then LineStart
    else if c == '\r' then (if q == Dot then DotCr else Cr)
    else if c == '.' && q == LineStart then Dot
    else Mid
  }

  // How many bytes pass before reading stops.
  function Run(s: string, q: Q): (n: nat)
    ensures n <= |s|
  {
    if s == "" || Bare(q, s[0]) || Final(q, s[0]) then 0 else 1 + Run(s[1..], Step(q, s[0]))
  }

  function StateAt(s: string, n: nat): Q
    requires n <= |s|
  {
    if n == 0 || s[n - 1] == '\n' then LineStart
    else if s[n - 1] == '.' && (n == 1 || s[n - 2] == '\n') then Dot
    else if s[n - 1] == '\r' then
      (if n >= 2 && s[n - 2] == '.' && (n == 2 || s[n - 3] == '\n') then DotCr else Cr)
    else Mid
  }

  lemma {:induction false} StateMeans(s: string, n: nat)
    requires n < |s| && forall j :: 0 <= j < n ==> !StopsAt(s, j)
    ensures BareAt(s, n) <==> Bare(StateAt(s, n), s[n])
    ensures DotAt(s, n) <==> Final(StateAt(s, n), s[n])
    ensures !StopsAt(s, n) ==> StateAt(s, n + 1) == Step(StateAt(s, n), s[n])
  {
    if n >= 4 {
      assert s[n - 4..n + 1] == [s[n - 4], s[n - 3], s[n - 2], s[n - 1], s[n]];
      assert !StopsAt(s, n - 3);
    }
    if n == 3 { assert !StopsAt(s, 0); }
    if n == 2 { assert s[..3] == [s[0], s[1], s[2]]; }
  }

  lemma {:induction false} StopIsRun(s: string, n: nat)
    requires n <= |s| && forall j :: 0 <= j < n ==> !StopsAt(s, j)
    ensures Stop(s) == n + Run(s[n..], StateAt(s, n))
    decreases |s| - n
  {
    if n == |s| {
      OneStop(s, n);
      assert s[n..] == "";
    } else {
      StateMeans(s, n);
      assert s[n..][1..] == s[n + 1..];
      if StopsAt(s, n) {
        OneStop(s, n);
      } else {
        StopIsRun(s, n + 1);
      }
    }
  }

  lemma {:induction false} StopIs(s: string)
    ensures Stop(s) == Run(s, LineStart)
  {
    StopIsRun(s, 0);
    assert s[0..] == s;
  }

  // ---------------------------------------------------------------- lines

  // No CR and no LF.
  predicate Line(l: string) { Without(l, '\r') && Without(l, '\n') }
  predicate AllLines(ls: seq<string>) { forall k :: 0 <= k < |ls| ==> Line(ls[k]) }

  function WireText(ls: seq<string>): string { if ls == [] then "" else ls[0] + CRLF + WireText(ls[1..]) }

  lemma {:induction false} RunMid(l: string, t: string, q: Q)
    requires Line(l) && (q == Mid || (q == Dot && l != ""))
    ensures Run(l + CRLF + t, q) == |l| + 2 + Run(t, LineStart)
  {
    var s := l + CRLF + t;
    if l == "" {
      assert s[1..][1..] == t;
    } else {
      assert s[1..] == l[1..] + CRLF + t;
      RunMid(l[1..], t, Mid);
    }
  }

  lemma {:induction false} RunLine(l: string, t: string)
    requires Line(l) && l != "."
    ensures Run(l + CRLF + t, LineStart) == |l| + 2 + Run(t, LineStart)
  {
    var s := l + CRLF + t;
    if l == "" {
      assert s[1..][1..] == t;
    } else {
      assert s[1..] == l[1..] + CRLF + t;
      assert l == [l[0]] + l[1..];
      RunMid(l[1..], t, if l[0] == '.' then Dot else Mid);
    }
  }

  lemma {:induction false} RunDot(rest: string)
    ensures Run(".\r\n" + rest, LineStart) == 2
  {
    var s := ".\r\n" + rest;
    assert s[1..] == "\r\n" + rest && s[1..][1..] == "\n" + rest;
    assert Run("\n" + rest, DotCr) == 0;
    assert Run("\r\n" + rest, Dot) == 1 + Run(s[1..][1..], DotCr);
  }

  lemma {:induction false} RunText(ls: seq<string>, rest: string)
    requires AllLines(ls) && "." !in ls
    ensures Run(WireText(ls) + (".\r\n" + rest), LineStart) == |WireText(ls)| + 2
  {
    var e := ".\r\n" + rest;
    if ls == [] {
      assert WireText(ls) + e == e;
      RunDot(rest);
    } else {
      Assoc(ls[0] + CRLF, WireText(ls[1..]), e);
      RunLine(ls[0], WireText(ls[1..]) + e);
      assert "." !in ls[1..];
      RunText(ls[1..], rest);
    }
  }

  // ---------------------------------------------------------------- what is kept of the lines

  function Undot(l: string): string { if l != "" && l[0] == '.' then l[1..] else l }

  function Unstuffed(ls: seq<string>): string { if ls == [] then "" else Undot(ls[0]) + "\n" + Unstuffed(ls[1..]) }

  lemma {:induction false} KeptMid(l: string, t: string)
    requires Line(l)
    ensures Kept(l + CRLF + t, false) == l + "\n" + Kept(t, true)
  {
    var s := l + CRLF + t;
    if l == "" {
      assert s[1..][1..] == t;
      assert Kept(s, false) == "" + Kept(s[1..], false);
      assert Kept(s[1..], false) == "\n" + Kept(t, true);
      assert "" + ("\n" + Kept(t, true)) == l + "\n" + Kept(t, true);
    } else {
      assert s[1..] == l[1..] + CRLF + t;
      KeptMid(l[1..], t);
      assert [l[0]] + (l[1..] + "\n" + Kept(t, true)) == l + "\n" + Kept(t, true);
    }
  }

  lemma {:induction false} KeptLine(l: string, t: string)
    requires Line(l)
    ensures Kept(l + CRLF + t, true) == Undot(l) + "\n" + Kept(t, true)
  {
    var s := l + CRLF + t;
    if l == "" {
      KeptMid(l, t);
      assert s == "" + CRLF + t;
    } else {
      assert s[1..] == l[1..] + CRLF + t;
      KeptMid(l[1..], t);
      if l[0] != '.' {
        assert [l[0]] + (l[1..] + "\n" + Kept(t, true)) == l + "\n" + Kept(t, true);
      }
    }
  }

  lemma {:induction false} KeptText(ls: seq<string>)
    requires AllLines(ls)
    ensures Kept(WireText(ls) + ".\r", true) == Unstuffed(ls)
  {
    if ls == [] {
      assert WireText(ls) + ".\r" == ".\r";
      assert ".\r"[1..] == "\r" && "\r"[1..] == "";
    } else {
      Assoc(ls[0] + CRLF, WireText(ls[1..]), ".\r");
      KeptLine(ls[0], WireText(ls[1..]) + ".\r");
      KeptText(ls[1..]);
    }
  }

  // Reading lines, none of them a single dot, up to the dot: all of them come back without their first dot.
  lemma {:induction false} ReadLines(ls: seq<string>, rest: string)
    requires AllLines(ls) && "." !in ls
    ensures var input := WireText(ls) + (".\r\n" + rest);
      && Stop(input) == |WireText(ls)| + 2 < |input| && DotAt(input, Stop(input))
      && Consumed(input) == |WireText(ls)| + 3 && Data(input) == Unstuffed(ls)
  {
    var input := WireText(ls) + (".\r\n" + rest);
    var i := |WireText(ls)| + 2;
    StopIs(input);
    RunText(ls, rest);
    assert input[..i] == WireText(ls) + ".\r";
    KeptText(ls);
    assert input[i] == '\n' && input[i - 1] == '\r';
    assert !BareAt(input, i);
  }

  // ---------------------------------------------------------------- every accepted message

  lemma {:induction false} TextIsJoined(ls: seq<string>)
    ensures JoinCrlf(ls + [""]) == WireText(ls)
  {
    if ls != [] {
      assert (ls + [""])[1..] == ls[1..] + [""];
      TextIsJoined(ls[1..]);
    }
  }

  lemma {:induction false} FirstDot(ls: seq<string>) returns (k: nat)
    requires "." in ls
    ensures k < |ls| && ls[k] == "." && "." !in ls[..k]
  {
    if ls[0] == "." {
      k := 0;
    } else {
      assert ls == [ls[0]] + ls[1..];
      k := FirstDot(ls[1..]);
      k := k + 1;
      assert ls[..k] == [ls[0]] + ls[1..][..k - 1];
    }
  }

  lemma {:induction false} TextAppend(a: seq<string>, b: seq<string>)
    ensures WireText(a + b) == WireText(a) + WireText(b)
  {
    if a == [] {
      assert a + b == b;
    } else {
      assert (a + b)[1..] == a[1..] + b;
      TextAppend(a[1..], b);
      Assoc(a[0] + CRLF, WireText(a[1..]), WireText(b));
    }
  }

  lemma {:induction false} ContentPaired(input: string)
    requires var i := Stop(input); i < |input| && DotAt(input, i)
    ensures var i := Stop(input); i >= 2 && Paired(input[..i - 2]) && (i == 2 || input[..i - 2][i - 3] == '\n')
    ensures var i := Stop(input); input[i - 2..i + 1] == ".\r\n"
  {
    var i := Stop(input);
    var c := input[..i - 2];
    if i >= 4 {
      var t := input[i - 4..i + 1];
      assert t[0] == '\r' && t[1] == '\n' && t[2] == '.' && t[3] == '\r' && t[4] == '\n';
      assert input[i - 4] == t[0] && input[i - 3] == t[1];
      assert input[i - 2..i + 1] == t[2..];
      assert c[i - 3] == '\n';
    } else {
      assert input[0..3] == input[..3];
    }
    forall j | 0 <= j < |c|
      ensures c[j] == '\r' ==> j + 1 < |c| && c[j + 1] == '\n'
      ensures c[j] == '\n' ==> j > 0 && c[j - 1] == '\r'
    {
      assert c[j] == input[j];
      assert !StopsAt(input, j);
      if c[j] == '\r' {
        assert j + 1 < |c|;
        assert !StopsAt(input, j + 1);
      }
    }
  }

  lemma {:induction false} LastIsEmpty(c: string)
    requires c == "" || (c[|c| - 1] == '\n' && Paired(c))
    ensures SplitCrlf(c)[|SplitCrlf(c)| - 1] == ""
  {
    if c != "" {
      var t := c[..|c| - 2];
      assert c == t + CRLF + "";
      SplitAppend(t, "");
    }
  }

  // Text made of whole lines.
  lemma {:induction false} WholeLines(c: string) returns (ls: seq<string>)
    requires Paired(c) && (c == "" || c[|c| - 1] == '\n')
    ensures AllLines(ls) && c == WireText(ls)
  {
    SplitPaired(c);
    JoinSplit(c);
    LastIsEmpty(c);
    var all := SplitCrlf(c);
    ls := all[..|all| - 1];
    assert all == ls + [""];
    TextIsJoined(ls);
  }

  // A dot line would have ended the reading.
  lemma {:induction false} DotEndsEarly(ls: seq<string>, rest: string)
    requires AllLines(ls) && "." in ls
    ensures Stop(WireText(ls) + (".\r\n" + rest)) < |WireText(ls)|
  {
    var k := FirstDot(ls);
    var a, b := ls[..k], ls[k + 1..];
    assert ls == a + ([ls[k]] + b);
    TextAppend(a, [ls[k]] + b);
    assert ([ls[k]] + b)[1..] == b;
    var t := ".\r\n" + rest;
    assert WireText([ls[k]] + b) == ".\r\n" + WireText(b) by { assert "." + CRLF == ".\r\n"; }
    Assoc(WireText(a), ".\r\n" + WireText(b), t);
    Assoc(".\r\n", WireText(b), t);
    ReadLines(a, WireText(b) + t);
  }

  // Every message that is read to its dot is a list of lines, none of them a single dot, and the data returned are
  // those lines, each without one leading dot.
  lemma {:induction false} DataMeaning(input: string) returns (ls: seq<string>)
    requires Stop(input) < |input| && DotAt(input, Stop(input))
    ensures AllLines(ls) && "." !in ls
    ensures input[..Consumed(input)] == WireText(ls) + ".\r\n"
    ensures Data(input) == Unstuffed(ls)
  {
    var i := Stop(input);
    ContentPaired(input);
    ls := WholeLines(input[..i - 2]);
    var rest := input[i + 1..];
    assert input[..i + 1] == input[..i - 2] + input[i - 2..i + 1];
    assert input == input[..i + 1] + rest;
    Assoc(WireText(ls), ".\r\n", rest);
    if "." in ls { DotEndsEarly(ls, rest); }
    ReadLines(ls, rest);
  }

  // ---------------------------------------------------------------- the round trip

  function Stuff(l: string): string { if l != "" && l[0] == '.' then "." + l else l }

  function StuffAll(ls: seq<string>): (r: seq<string>)
    ensures |r| == |ls| && forall i :: 0 <= i < |ls| ==> r[i] == Stuff(ls[i])
  {
    seq(|ls|, i requires 0 <= i < |ls| => Stuff(ls[i]))
  }

  function LfText(ls: seq<string>): string { if ls == [] then "" else ls[0] + "\n" + LfText(ls[1..]) }

  lemma {:induction false} UnstuffStuffed(ls: seq<string>)
    ensures Unstuffed(StuffAll(ls)) == LfText(ls)
  {
    if ls != [] {
      UnstuffStuffed(ls[1..]);
      assert StuffAll(ls)[1..] == StuffAll(ls[1..]);
    }
  }

  lemma {:induction false} ToCrlfOfLines(ls: seq<string>)
    requires AllLines(ls)
    ensures ToCrlf(LfText(ls)) == WireText(ls)
  {
    if ls == [] {
      assert SplitChar("", '\n') == [""];
    } else {
      ToCrlfAppend(ls[0], LfText(ls[1..]));
      ToCrlfLine(ls[0]);
      EndedIs(ls[0]);
      assert !EndsCr(ls[0]);
      ToCrlfOfLines(ls[1..]);
    }
  }

  // Stuffed lines, read up to the dot and converted back, are the lines again; what follows stays unread.
  lemma {:induction false} StuffingRoundTrip(ls: seq<string>, rest: string, end: End, max: int)
    requires AllLines(ls)
    requires max >= |WireText(StuffAll(ls))| + 3
    ensures var input := WireText(StuffAll(ls)) + (".\r\n" + rest);
      && ReadOutcome(input, end, max) == Done
      && ToCrlf(Truncated(Data(input), max)) == WireText(ls)
      && input[Consumed(input)..] == rest
  {
    var ms := StuffAll(ls);
    StuffedLines(ls);
    ReadLines(ms, rest);
    UnstuffStuffed(ls);
    ToCrlfOfLines(ls);
    SizeLimit(WireText(ms) + (".\r\n" + rest), end, max);
    AfterDot(WireText(ms), rest);
  }

  lemma {:induction false} StuffedLines(ls: seq<string>)
    requires AllLines(ls)
    ensures AllLines(StuffAll(ls)) && "." !in StuffAll(ls)
  {}

  lemma {:induction false} AfterDot(text: string, rest: string)
    ensures (text + (".\r\n" + rest))[|text| + 3..] == rest
  {}
}
