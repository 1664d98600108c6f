/** What the body canonicalisations mean, line by line (sections 3.4.3 and 3.4.4 of RFC 6376). */
module CanonicalBody {
  import opened Text
  import opened Message
  import opened Canonical

  // ---------------------------------------------------------------- simple

  function Breaks(k: nat): string { if k == 0 then "" else Breaks(k - 1) + CRLF }

  lemma {:induction false} StripBreaksIs(s: string)
    ensures exists k: nat :: s == StripBreaks(s) + Breaks(k)
  {
    if EndsCrlf(s) {
      var t := s[..|s| - 2];
      StripBreaksIs(t);
      var k: nat :| t == StripBreaks(t) + Breaks(k);
      assert s == t + CRLF;
      Assoc(StripBreaks(t), Breaks(k), CRLF);
      assert s == StripBreaks(s) + Breaks(k + 1);
    } else {
      assert s == StripBreaks(s) + Breaks(0);
    }
  }

  lemma {:induction false} SimpleBodyIs(b: string)
    ensures SimpleBody(b) == StripBreaks(b) + CRLF
  {}

  // simpleBody replaces all the line breaks that end the body by exactly one, and is idempotent.
  lemma {:induction false} SimpleBodyMeaning(b: string)
    ensures exists t, k: nat :: b == t + Breaks(k) && !EndsCrlf(t) && SimpleBody(b) == t + CRLF
    ensures SimpleBody(SimpleBody(b)) == SimpleBody(b)
  {
    StripBreaksIs(b);
    SimpleBodyIs(b);
    var t := StripBreaks(b);
    assert (t + CRLF)[..|t + CRLF| - 2] == t;
    SimpleBodyIs(t + CRLF);
  }

  // ---------------------------------------------------------------- relaxed, by lines

  function RelaxLine(l: string): string { Squeeze(TrimRight(l, IsWsp)) }

  function RelaxLines(ls: seq<string>): (r: seq<string>)
    ensures |r| == |ls| && forall i :: 0 <= i < |ls| ==> r[i] == RelaxLine(ls[i])
  {
    seq(|ls|, i requires 0 <= i < |ls| => RelaxLine(ls[i]))
  }

  function DropEmptyEnd(ls: seq<string>): (r: seq<string>)
    ensures r == [] || r[|r| - 1] != ""
  {
    if ls != [] && ls[|ls| - 1] == "" then DropEmptyEnd(ls[..|ls| - 1]) else ls
  }

  // Trailing white space goes, inner white space shrinks, empty lines at the end go;
  // a body of blank lines only becomes one line break.
  function LineByLine(ls: seq<string>): string {
    var r := DropEmptyEnd(RelaxLines(ls));
    if r == [] then CRLF else Terminated(r)
  }

  predicate Lines(ls: seq<string>) { forall k :: 0 <= k < |ls| ==> NoCrlf(ls[k]) }

  lemma {:induction false} TrimLineEndsAppend(a: string, b: string)
    requires a == "" || a[|a| - 1] == '\n'
    ensures TrimLineEnds(a + b) == TrimLineEnds(a) + TrimLineEnds(b)
    decreases |a|
  {
    if a == "" {
      assert a + b == b;
    } else {
      SkipWspAppend(a, b);
      DropLeft(a, b, 1);
      if IsWsp(a[0]) && StartsCrlf(SkipWsp(a + b)) {
        assert |SkipWsp(a)| >= 2 by { assert SkipWsp(a)[|SkipWsp(a)| - 1] == '\n'; }
        TrimLineEndsAppend(SkipWsp(a), b);
      } else {
        assert !(IsWsp(a[0]) && StartsCrlf(SkipWsp(a)));
        TrimLineEndsAppend(a[1..], b);
        Assoc([a[0]], TrimLineEnds(a[1..]), TrimLineEnds(b));
      }
    }
  }

  lemma {:induction false} SkipWspAppend(a: string, b: string)
    requires a != "" && !IsWsp(a[|a| - 1])
    ensures SkipWsp(a) != "" && SkipWsp(a + b) == SkipWsp(a) + b && SkipWsp(a)[|SkipWsp(a)| - 1] == a[|a| - 1]
    ensures IsWsp(a[0]) ==> |SkipWsp(a)| < |a|
  {
    if IsWsp(a[0]) {
      assert (a + b)[1..] == a[1..] + b;
      SkipWspAppend(a[1..], b);
    }
  }

  lemma {:induction false} SqueezeAppend(a: string, b: string)
    requires a == "" || !IsWsp(a[|a| - 1])
    ensures Squeeze(a + b) == Squeeze(a) + Squeeze(b)
    decreases |a|
  {
    if a == "" {
      assert a + b == b;
    } else {
      assert (a + b)[1..] == a[1..] + b;
      if IsWsp(a[0]) {
        var t := SkipWsp(a[1..]);
        SkipWspAppend(a[1..], b);
        SqueezeAppend(t, b);
        Assoc(" ", Squeeze(t), Squeeze(b));
      } else {
        SqueezeAppend(a[1..], b);
        Assoc([a[0]], Squeeze(a[1..]), Squeeze(b));
      }
    }
  }

  lemma {:induction false} SqueezeAppendBreak(a: string)
    ensures Squeeze(a + CRLF) == Squeeze(a) + CRLF
    decreases |a|
  {
    if a == "" {
      assert a + CRLF == CRLF;
      assert CRLF[1..][1..] == "";
    } else {
      assert (a + CRLF)[1..] == a[1..] + CRLF;
      if IsWsp(a[0]) {
        var t := SkipWsp(a[1..]);
        SkipWspBeforeBreak(a[1..]);
        SqueezeAppendBreak(t);
        Assoc(" ", Squeeze(t), CRLF);
      } else {
        SqueezeAppendBreak(a[1..]);
        Assoc([a[0]], Squeeze(a[1..]), CRLF);
      }
    }
  }

  lemma {:induction false} SkipWspBeforeBreak(a: string)
    ensures SkipWsp(a + CRLF) == SkipWsp(a) + CRLF
    ensures SkipWsp(a) == "" <==> TrimRight(a, IsWsp) == ""
  {
    if a == "" {
      assert a + CRLF == CRLF;
    } else {
      DropLeft(a, CRLF, 1);
      TrimRightCons(a);
      assert (a + CRLF)[0] == a[0];
      if IsWsp(a[0]) {
        SkipWspBeforeBreak(a[1..]);
      }
    }
  }

  lemma {:induction false} TrimRightCons(a: string)
    requires a != ""
    ensures TrimRight(a, IsWsp)
         == if TrimRight(a[1..], IsWsp) == "" && IsWsp(a[0]) then "" else [a[0]] + TrimRight(a[1..], IsWsp)
    decreases |a|
  {
    if |a| > 1 && IsWsp(a[|a| - 1]) {
      var t := a[..|a| - 1];
      TrimRightCons(t);
      assert a[1..][..|a[1..]| - 1] == t[1..];
    } else {
      assert a == [a[0]] + a[1..];
    }
  }

  // One line: the white space before its break goes.
  lemma {:induction false} TrimLineEndsLine(l: string)
    requires NoCrlf(l)
    ensures TrimLineEnds(l + CRLF) == TrimRight(l, IsWsp) + CRLF
    decreases |l|
  {
    if l == "" {
      assert l + CRLF == CRLF;
      assert CRLF[1..][1..] == "";
    } else {
      DropLeft(l, CRLF, 1);
      NoCrlfPart(l, 1, |l|);
      assert l[1..|l|] == l[1..];
      TrimLineEndsLine(l[1..]);
      TrimRightCons(l);
      if IsWsp(l[0]) {
        WspThenBreak(l);
      }
    }
  }

  // White space at the start of a line reaches its end exactly when the line is blank.
  lemma {:induction false} WspThenBreak(l: string)
    requires NoCrlf(l)
    ensures SkipWsp(l + CRLF) == SkipWsp(l) + CRLF
    ensures StartsCrlf(SkipWsp(l + CRLF)) <==> TrimRight(l, IsWsp) == ""
    ensures TrimRight(l, IsWsp) == "" ==> TrimLineEnds(SkipWsp(l + CRLF)) == CRLF
  {
    SkipWspBeforeBreak(l);
    var k := SkipWsp(l);
    if k == "" {
      assert "" + CRLF == CRLF;
      assert TrimLineEnds(CRLF) == CRLF by { assert CRLF[1..][1..] == ""; }
    } else {
      SkipWspSuffix(l);
      NoCrlfPart(l, |l| - |k|, |l|);
      assert l[|l| - |k|..|l|] == k;
      LineStart(k);
    }
  }

  lemma {:induction false} LineStart(k: string)
    requires k != "" && NoCrlf(k)
    ensures !StartsCrlf(k + CRLF)
  {
    if |k| >= 2 { assert !(k[0] == '\r' && k[0 + 1] == '\n'); }
  }

  lemma {:induction false} TerminatedEnd(ls: seq<string>)
    ensures Terminated(ls) == "" || Terminated(ls)[|Terminated(ls)| - 1] == '\n'
  {}

  lemma {:induction false} RelaxLast(t: string, l: string)
    requires NoCrlf(l)
    requires (t == "" || t[|t| - 1] == '\n') && (TrimLineEnds(t) == "" || TrimLineEnds(t)[|TrimLineEnds(t)| - 1] == '\n')
    ensures Squeeze(TrimLineEnds(t + l + CRLF)) == Squeeze(TrimLineEnds(t)) + RelaxLine(l) + CRLF
  {
    var r := TrimRight(l, IsWsp);
    Assoc(t, l, CRLF);
    TrimLineEndsAppend(t, l + CRLF);
    TrimLineEndsLine(l);
    SqueezeAppend(TrimLineEnds(t), r + CRLF);
    SqueezeAppendBreak(r);
    Assoc(Squeeze(TrimLineEnds(t)), RelaxLine(l), CRLF);
  }

  lemma {:induction false} RelaxTerminated(ls: seq<string>)
    requires Lines(ls)
    ensures Squeeze(TrimLineEnds(Terminated(ls))) == Terminated(RelaxLines(ls))
  {
    if ls != [] {
      var n := |ls| - 1;
      var init, l := ls[..n], ls[n];
      RelaxTerminated(init);
      TerminatedEnd(init);
      TrimLineEndsKeepsEnd(init);
      RelaxLast(Terminated(init), l);
      assert RelaxLines(ls) == RelaxLines(init) + [RelaxLine(l)];
      TerminatedSnoc(RelaxLines(init), RelaxLine(l));
    }
  }

  lemma {:induction false} TrimLineEndsKeepsEnd(ls: seq<string>)
    requires Lines(ls)
    ensures var t := TrimLineEnds(Terminated(ls)); t == "" || t[|t| - 1] == '\n'
  {
    if ls != [] {
      var n := |ls| - 1;
      TerminatedEnd(ls[..n]);
      Assoc(Terminated(ls[..n]), ls[n], CRLF);
      TrimLineEndsAppend(Terminated(ls[..n]), ls[n] + CRLF);
      TrimLineEndsLine(ls[n]);
    }
  }

  lemma {:induction false} StripOneBreak(t: string)
    ensures EndsCrlf(t + CRLF) && StripBreaks(t + CRLF) == StripBreaks(t)
  {
    assert (t + CRLF)[..|t + CRLF| - 2] == t;
  }

  lemma {:induction false} StripTerminated(ls: seq<string>)
    requires Lines(ls) && ls != []
    ensures EndsCrlf(Terminated(ls))
    ensures StripBreaks(Terminated(ls)) + CRLF == if DropEmptyEnd(ls) == [] then CRLF else Terminated(DropEmptyEnd(ls))
  {
    var n := |ls| - 1;
    var init, l := ls[..n], ls[n];
    var t := Terminated(init) + l;
    StripOneBreak(t);
    if l == "" {
      assert t == Terminated(init);
      if init == [] {
        assert "" + CRLF == CRLF;
      } else {
        assert forall k :: 0 <= k < |init| ==> init[k] == ls[k];
        StripTerminated(init);
      }
    } else {
      LineEndNotBreak(init, l);
    }
  }

  lemma {:induction false} LineEndNotBreak(init: seq<string>, l: string)
    requires NoCrlf(l) && l != ""
    ensures !EndsCrlf(Terminated(init) + l)
  {
    TerminatedEnd(init);
    var t := Terminated(init) + l;
    if |l| >= 2 {
      assert t[|t| - 2] == l[|l| - 2] && t[|t| - 1] == l[|l| - 2 + 1];
    } else if |t| >= 2 {
      assert t[|t| - 2] == Terminated(init)[|Terminated(init)| - 1];
    }
  }

  lemma {:induction false} SqueezeNoCrlf(s: string)
    requires NoCrlf(s)
    ensures NoCrlf(Squeeze(s))
    ensures s != "" ==> Squeeze(s) != "" && Squeeze(s)[0] == if IsWsp(s[0]) then ' ' else s[0]
    decreases |s|
  {
    if s != "" {
      var t := if IsWsp(s[0]) then SkipWsp(s[1..]) else s[1..];
      NoCrlfPart(s, |s| - |t|, |s|);
      SkipWspSuffix(s[1..]);
      assert t == s[|s| - |t|..|s|];
      SqueezeNoCrlf(t);
      var q := Squeeze(s);
      assert q[1..] == Squeeze(t);
      forall i | 0 <= i < |q| - 1 ensures !(q[i] == '\r' && q[i + 1] == '\n') {
        if i == 0 {
          if s[0] == '\r' && |s| > 1 { assert !(s[0] == '\r' && s[0 + 1] == '\n'); }
        } else {
          assert q[i] == q[1..][i - 1] && q[i + 1] == q[1..][i - 1 + 1];
        }
      }
    }
  }

  lemma {:induction false} RelaxLinesLines(ls: seq<string>)
    requires Lines(ls)
    ensures Lines(RelaxLines(ls))
  {
    forall k | 0 <= k < |ls| ensures NoCrlf(RelaxLines(ls)[k]) {
      TrimRightPrefix(ls[k]);
      NoCrlfPart(ls[k], 0, |TrimRight(ls[k], IsWsp)|);
      SqueezeNoCrlf(TrimRight(ls[k], IsWsp));
    }
  }

  lemma {:induction false} EndsCrlfLines(b: string) returns (ls: seq<string>)
    requires EndsCrlf(b)
    ensures ls == SplitCrlf(b)[..|SplitCrlf(b)| - 1] && ls != [] && Lines(ls) && b == Terminated(ls)
  {
    var t := b[..|b| - 2];
    ls := SplitCrlf(t);
    assert b == t + CRLF + "";
    SplitAppend(t, "");
    SplitPieces(t);
    JoinSplit(b);
    assert SplitCrlf(b) == ls + [""];
    JoinTerminated(ls, [""]);
  }

  // relaxBody is the line-by-line canonicalisation on every body that ends with a line break.
  lemma {:induction false} RelaxBodyMeaning(b: string)
    requires EndsCrlf(b)
    ensures RelaxBody(b) == LineByLine(SplitCrlf(b)[..|SplitCrlf(b)| - 1])
  {
    var ls := EndsCrlfLines(b);
    RelaxOfLines(ls);
  }

  lemma {:induction false} RelaxOfLines(ls: seq<string>)
    requires Lines(ls) && ls != []
    ensures RelaxBody(Terminated(ls)) == LineByLine(ls)
  {
    RelaxTerminated(ls);
    RelaxLinesLines(ls);
    var r := RelaxLines(ls);
    StripTerminated(r);
    RelaxFrom(Terminated(ls), Terminated(r));
  }

  lemma {:induction false} RelaxFrom(b: string, t: string)
    requires Squeeze(TrimLineEnds(b)) == t && EndsCrlf(t)
    ensures RelaxBody(b) == StripBreaks(t) + CRLF
  {}

  // ---------------------------------------------------------------- when relaxing again changes nothing

  lemma {:induction false} SqueezeEnds(s: string)
    requires s != ""
    ensures 0 < |Squeeze(s)| <= |s|
    ensures IsWsp(Squeeze(s)[0]) == IsWsp(s[0])
    ensures IsWsp(Squeeze(s)[|Squeeze(s)| - 1]) == IsWsp(s[|s| - 1])
    decreases |s|
  {
    var t := if IsWsp(s[0]) then SkipWsp(s[1..]) else s[1..];
    assert Squeeze(s)[1..] == Squeeze(t);
    SkipWspSuffix(s[1..]);
    if t == "" {
      if IsWsp(s[0]) { AllWsp(s[1..]); }
    } else {
      SqueezeEnds(t);
    }
  }

  lemma {:induction false} SqueezeTwice(s: string)
    ensures Squeeze(Squeeze(s)) == Squeeze(s)
    decreases |s|
  {
    if s != "" {
      var t := if IsWsp(s[0]) then SkipWsp(s[1..]) else s[1..];
      SqueezeTwice(t);
      assert Squeeze(s)[1..] == Squeeze(t);
      if IsWsp(s[0]) {
        if t != "" { SqueezeEnds(t); }
        SkipWspStays(Squeeze(t));
      }
    }
  }

  lemma {:induction false} SkipWspStays(s: string)
    requires s == "" || !IsWsp(s[0])
    ensures SkipWsp(s) == s
  {}

  lemma {:induction false} AllWsp(s: string)
    requires SkipWsp(s) == ""
    ensures forall i :: 0 <= i < |s| ==> IsWsp(s[i])
  {
    if s != "" { AllWsp(s[1..]); }
  }

  lemma {:induction false} RelaxLineTwice(l: string)
    ensures RelaxLine(RelaxLine(l)) == RelaxLine(l) && |RelaxLine(l)| <= |l|
    ensures RelaxLine(l) == "" || !IsWsp(RelaxLine(l)[|RelaxLine(l)| - 1])
  {
    var t := TrimRight(l, IsWsp);
    TrimRightPrefix(l);
    SqueezeTwice(t);
    if t != "" { SqueezeEnds(t); }
    assert TrimRight(Squeeze(t), IsWsp) == Squeeze(t);
  }

  lemma {:induction false} SplitTerminated(ls: seq<string>)
    requires Lines(ls) && ls != []
    ensures SplitCrlf(Terminated(ls)) == ls + [""] && EndsCrlf(Terminated(ls))
  {
    JoinTerminated(ls, [""]);
    assert Terminated(ls) + "" == Terminated(ls);
    SplitJoin(ls + [""]);
    StripTerminated(ls);
  }

  // Lines that are already relaxed and do not end in an empty line stay.
  lemma {:induction false} RelaxedLinesStay(ls: seq<string>)
    requires Lines(ls) && ls != [] && RelaxLines(ls) == ls && (ls[|ls| - 1] != "" || ls == [""])
    ensures RelaxBody(Terminated(ls)) == Terminated(ls)
  {
    RelaxOfLines(ls);
    if ls == [""] {
      assert [""][..0] == [];
      assert Terminated([""]) == CRLF;
      assert DropEmptyEnd([""]) == DropEmptyEnd([]) == [];
    }
  }

  lemma {:induction false} RelaxLinesTwice(ls: seq<string>)
    ensures RelaxLines(RelaxLines(ls)) == RelaxLines(ls)
  {
    forall i | 0 <= i < |ls| ensures RelaxLine(RelaxLine(ls[i])) == RelaxLine(ls[i]) { RelaxLineTwice(ls[i]); }
  }

  lemma {:induction false} DropEmptyEndPrefix(ls: seq<string>)
    ensures |DropEmptyEnd(ls)| <= |ls| && DropEmptyEnd(ls) == ls[..|DropEmptyEnd(ls)|]
  {
    if ls != [] && ls[|ls| - 1] == "" { DropEmptyEndPrefix(ls[..|ls| - 1]); }
  }

  lemma {:induction false} LineByLineStays(ls: seq<string>)
    requires Lines(ls)
    ensures RelaxBody(LineByLine(ls)) == LineByLine(ls)
  {
    var all := RelaxLines(ls);
    var r := DropEmptyEnd(all);
    if r == [] {
      BreakStays();
    } else {
      DropEmptyEndPrefix(all);
      RelaxLinesTwice(ls);
      RelaxLinesLines(ls);
      PrefixRelaxed(all, r);
      RelaxedLinesStay(r);
    }
  }

  lemma {:induction false} BreakStays()
    ensures RelaxBody(CRLF) == CRLF
  {
    assert [""][..0] == [] && Terminated([""]) == CRLF;
    assert RelaxLines([""]) == [""];
    RelaxedLinesStay([""]);
  }

  lemma {:induction false} PrefixRelaxed(all: seq<string>, r: seq<string>)
    requires r <= all && RelaxLines(all) == all && Lines(all)
    ensures RelaxLines(r) == r && Lines(r)
  {
    assert forall i :: 0 <= i < |r| ==> r[i] == all[i] && RelaxLines(r)[i] == RelaxLines(all)[i];
  }

  lemma {:induction false} RelaxBodyTwiceWhole(b: string)
    requires EndsCrlf(b)
    ensures RelaxBody(RelaxBody(b)) == RelaxBody(b)
  {
    var ls := EndsCrlfLines(b);
    RelaxBodyMeaning(b);
    LineByLineStays(ls);
  }

  lemma {:induction false} TrimLineEndsNoBreak(p: string)
    requires NoCrlf(p)
    ensures TrimLineEnds(p) == p
  {
    if p != "" {
      NoCrlfPart(p, 1, |p|);
      assert p[1..|p|] == p[1..];
      TrimLineEndsNoBreak(p[1..]);
      SkipWspSuffix(p);
      var k := SkipWsp(p);
      NoCrlfPart(p, |p| - |k|, |p|);
      assert p[|p| - |k|..|p|] == k;
      assert !StartsCrlf(k) by { if |k| >= 2 { assert !(k[0] == '\r' && k[0 + 1] == '\n'); } }
      assert p == [p[0]] + p[1..];
    }
  }

  // A body that stops inside a line: the last line keeps its trailing white space.
  lemma {:induction false} RelaxBodyPartial(b: string) returns (ls: seq<string>, p: string)
    requires b != "" && !EndsCrlf(b)
    ensures Lines(ls) && NoCrlf(p) && p != "" && b == Terminated(ls) + p
    ensures RelaxBody(b) == Terminated(RelaxLines(ls) + [Squeeze(p)])
  {
    var all := SplitCrlf(b);
    ls, p := all[..|all| - 1], all[|all| - 1];
    SplitPieces(b);
    JoinSplit(b);
    assert all == ls + [p];
    JoinTerminated(ls, [p]);
    assert p != "" by {
      if p == "" {
        assert b == Terminated(ls);
        StripTerminated(ls);
      }
    }
    TerminatedEnd(ls);
    TrimLineEndsAppend(Terminated(ls), p);
    TrimLineEndsNoBreak(p);
    TrimLineEndsKeepsEnd(ls);
    SqueezeAppend(TrimLineEnds(Terminated(ls)), p);
    RelaxTerminated(ls);
    SqueezeNoCrlf(p);
    LineEndNotBreak(RelaxLines(ls), Squeeze(p));
    TerminatedSnoc(RelaxLines(ls), Squeeze(p));
  }

  lemma {:induction false} TerminatedShorter(a: seq<string>, b: seq<string>)
    requires |a| <= |b| && forall i :: 0 <= i < |a| ==> |a[i]| <= |b[i]|
    ensures |Terminated(a)| <= |Terminated(b)|
  {
    if b != [] {
      if |a| == |b| {
        TerminatedShorter(a[..|a| - 1], b[..|b| - 1]);
      } else {
        TerminatedShorter(a, b[..|b| - 1]);
      }
    }
  }

  lemma {:induction false} RelaxAgainShrinks(init: seq<string>, q: string)
    requires Lines(init + [q]) && q != "" && IsWsp(q[|q| - 1])
    ensures RelaxBody(Terminated(init + [q])) != Terminated(init + [q])
  {
    var ls := init + [q];
    RelaxOfLines(ls);
    TerminatedSnoc(init, q);
    var r := DropEmptyEnd(RelaxLines(ls));
    DropEmptyEndPrefix(RelaxLines(ls));
    RelaxLineTwice(q);
    assert |RelaxLine(q)| < |q| by { if |RelaxLine(q)| == |q| { RelaxShorter(q); } }
    if r != [] {
      var ls' := init + [q[..|q| - 1]];
      forall i | 0 <= i < |r| ensures |r[i]| <= |ls'[i]| {
        assert r[i] == RelaxLine(ls[i]);
        RelaxLineTwice(ls[i]);
      }
      TerminatedShorter(r, ls');
      TerminatedSnoc(init, q[..|q| - 1]);
    }
  }

  lemma {:induction false} RelaxShorter(q: string)
    requires q != "" && IsWsp(q[|q| - 1])
    ensures |RelaxLine(q)| < |q|
  {
    TrimRightPrefix(q[..|q| - 1]);
    if TrimRight(q, IsWsp) != "" { SqueezeEnds(TrimRight(q, IsWsp)); }
  }

  lemma {:induction false} RelaxBodyTwicePartial(b: string)
    requires b != "" && !EndsCrlf(b)
    ensures RelaxBody(RelaxBody(b)) == RelaxBody(b) <==> !IsWsp(b[|b| - 1])
  {
    var ls, p := RelaxBodyPartial(b);
    var init, q := RelaxLines(ls), Squeeze(p);
    RelaxLinesLines(ls);
    SqueezeNoCrlf(p);
    SqueezeEnds(p);
    assert b[|b| - 1] == p[|p| - 1];
    if IsWsp(p[|p| - 1]) {
      RelaxAgainShrinks(init, q);
    } else {
      RelaxLinesTwice(ls);
      SqueezeTwice(p);
      assert TrimRight(q, IsWsp) == q;
      assert RelaxLines(init + [q]) == init + [q];
      RelaxedLinesStay(init + [q]);
    }
  }

  // relaxBody is idempotent exactly on the bodies that do not stop in white space.
  lemma {:induction false} RelaxBodyIdempotent(b: string)
    ensures RelaxBody(RelaxBody(b)) == RelaxBody(b) <==> b == "" || !IsWsp(b[|b| - 1])
  {
    if b == "" {
      assert RelaxBody("") == "";
    } else if EndsCrlf(b) {
      RelaxBodyTwiceWhole(b);
    } else {
      RelaxBodyTwicePartial(b);
    }
  }

  // ---------------------------------------------------------------- visible characters

  lemma {:induction false} SkipWspVisible(s: string)
    ensures Remove(SkipWsp(s), IsBlank) == Remove(s, IsBlank)
  {
    if s != "" && IsWsp(s[0]) { SkipWspVisible(s[1..]); }
  }

  lemma {:induction false} SqueezeVisible(s: string)
    ensures Remove(Squeeze(s), IsBlank) == Remove(s, IsBlank)
    decreases |s|
  {
    if s != "" {
      var t := if IsWsp(s[0]) then SkipWsp(s[1..]) else s[1..];
      SqueezeVisible(t);
      SkipWspVisible(s[1..]);
      assert Squeeze(s)[1..] == Squeeze(t);
    }
  }

  lemma {:induction false} TrimLineEndsVisible(s: string)
    ensures Remove(TrimLineEnds(s), IsBlank) == Remove(s, IsBlank)
    decreases |s|
  {
    if s == "" {
    } else if IsWsp(s[0]) && StartsCrlf(SkipWsp(s)) {
      TrimLineEndsVisible(SkipWsp(s));
      SkipWspVisible(s);
    } else {
      TrimLineEndsVisible(s[1..]);
      assert TrimLineEnds(s)[1..] == TrimLineEnds(s[1..]);
    }
  }

  lemma {:induction false} BreakInvisible(s: string)
    ensures Remove(s + CRLF, IsBlank) == Remove(s, IsBlank)
  {
    RemoveAppend(s, CRLF, IsBlank);
    assert CRLF[1..][1..] == "";
  }

  lemma {:induction false} StripBreaksVisible(s: string)
    ensures Remove(StripBreaks(s), IsBlank) == Remove(s, IsBlank)
  {
    if EndsCrlf(s) {
      var t := s[..|s| - 2];
      StripBreaksVisible(t);
      assert s == t + CRLF;
      BreakInvisible(t);
    }
  }

  // relaxBody touches white space only.
  lemma {:induction false} RelaxBodyVisible(b: string)
    ensures Remove(RelaxBody(b), IsBlank) == Remove(b, IsBlank)
  {
    TrimLineEndsVisible(b);
    var t := Squeeze(TrimLineEnds(b));
    SqueezeVisible(TrimLineEnds(b));
    StripBreaksVisible(t);
    BreakInvisible(StripBreaks(t));
    BreakInvisible(CollapseEnd(t));
  }
}
