/** The text of a signature: folding, wrapping and printing, and what reading takes back. */
module SigText {
  import opened Text
  import opened Base64
  import opened Message
  import opened Tags
  import opened Signing

  // ---------------------------------------------------------------- folding

  lemma {:induction false} FoldAppend(a: string, b: string)
    requires b == "" || b[0] != '\n'
    ensures Fold(a + b) == Fold(a) + Fold(b)
    decreases |a|
  {
    if a == "" {
      assert a + b == b;
    } else if StartsCrlf(a) {
      assert (a + b)[2..] == a[2..] + b;
      FoldAppend(a[2..], b);
      Assoc(CRLF + "\t", Fold(a[2..]), Fold(b));
    } else {
      assert (a + b)[1..] == a[1..] + b;
      FoldAppend(a[1..], b);
      Assoc([a[0]], Fold(a[1..]), Fold(b));
    }
  }

  lemma {:induction false} FoldPlain(a: string)
    requires Without(a, '\n')
    ensures Fold(a) == a
  {
    if a != "" {
      FoldPlain(a[1..]);
      assert !StartsCrlf(a) by { if |a| > 1 { assert a[1] != '\n'; } }
      assert a == [a[0]] + a[1..];
    }
  }

  // A line that ends, and the text after it.
  lemma {:induction false} FoldLine(a: string, b: string)
    requires Without(a, '\n') && (b == "" || b[0] != '\n')
    ensures Fold(a + CRLF + b) == a + CRLF + "\t" + Fold(b)
  {
    FoldAppend(a + CRLF, b);
    FoldAppend(a, CRLF);
    FoldPlain(a);
    assert CRLF[2..] == "";
    assert Fold(CRLF) == CRLF + "\t" + "";
    Assoc(a, CRLF, "\t");
  }

  // Folding indents every line after the first.
  lemma {:induction false} AfterBreak(f: string, t: string)
    requires f == CRLF + t
    ensures StartsCrlf(f) && f[2..] == t
  {}

  lemma {:induction false} FoldLines(v: string)
    ensures var l, m := SplitCrlf(v), SplitCrlf(Fold(v));
      |m| == |l| && m[0] == l[0] && forall k :: 1 <= k < |m| ==> m[k] == "\t" + l[k]
    decreases |v|
  {
    var f := Fold(v);
    if v == "" {
    } else if StartsCrlf(v) {
      var t := "\t" + Fold(v[2..]);
      FoldLines(v[2..]);
      AfterBreak(f, t);
      SplitPrefix("\t", Fold(v[2..]));
    } else {
      FoldLines(v[1..]);
      FoldNoBreak(v);
    }
  }

  lemma {:induction false} FoldNoBreak(v: string)
    requires v != "" && !StartsCrlf(v)
    ensures Fold(v) != "" && Fold(v)[0] == v[0] && Fold(v)[1..] == Fold(v[1..]) && !StartsCrlf(Fold(v))
  {
    if |v| > 1 { assert Fold(v[1..])[0] == if StartsCrlf(v[1..]) then '\r' else v[1]; }
  }

  lemma {:induction false} FoldedValue(v: string)
    ensures Folded(" " + Fold(v))
  {
    FoldLines(v);
    SplitPrefix(" ", Fold(v));
    SameTail(SplitCrlf(" " + Fold(v)), SplitCrlf(Fold(v)));
  }

  lemma {:induction false} SameTail(a: seq<string>, b: seq<string>)
    requires a != [] && b != [] && a == [a[0]] + b[1..]
    ensures |a| == |b| && forall k :: 1 <= k < |a| ==> a[k] == b[k]
  {}

  lemma {:induction false} RemoveBlanks(s: string)
    requires forall i :: 0 <= i < |s| ==> IsBlank(s[i])
    ensures Remove(s, IsBlank) == ""
  {
    if s != "" { RemoveBlanks(s[1..]); }
  }

  lemma {:induction false} FoldVisible(s: string)
    ensures Remove(Fold(s), IsBlank) == Remove(s, IsBlank)
    decreases |s|
  {
    if s == "" {
    } else if StartsCrlf(s) {
      FoldVisible(s[2..]);
      RemoveAppend(CRLF + "\t", Fold(s[2..]), IsBlank);
      RemoveBlanks(CRLF + "\t");
      assert s[1..][1..] == s[2..];
    } else {
      FoldVisible(s[1..]);
      assert Fold(s)[1..] == Fold(s[1..]);
    }
  }

  // Folding adds only blanks.
  lemma {:induction false} FoldFree(s: string, p: char -> bool)
    requires Free(s, p) && !p('\t')
    ensures Free(Fold(s), p)
    decreases |s|
  {
    if s == "" {
    } else if StartsCrlf(s) {
      FoldFree(s[2..], p);
    } else {
      FoldFree(s[1..], p);
    }
  }

  // ---------------------------------------------------------------- wrapping

  lemma {:induction false} BrokenVisible(s: string)
    requires Free(s, IsBlank)
    ensures Remove(Broken(s), IsBlank) == s
  {
    if |s| <= LIMIT {
      RemoveNothing(s, IsBlank);
    } else {
      var a, b := s[..LIMIT], s[LIMIT..];
      BrokenVisible(b);
      RemoveAppend(a + INDENT, Broken(b), IsBlank);
      RemoveAppend(a, INDENT, IsBlank);
      RemoveNothing(a, IsBlank);
      RemoveBlanks(INDENT);
      assert a + "" == a && s == a + b;
    }
  }

  lemma {:induction false} BrokenFree(s: string, p: char -> bool)
    requires Free(s, p) && !p('\r') && !p('\n') && !p(' ')
    ensures Free(Broken(s), p)
    ensures s != "" ==> Broken(s) != "" && Broken(s)[0] == s[0]
  {
    if |s| > LIMIT { BrokenFree(s[LIMIT..], p); }
  }

  // Every wrapped line fits.
  lemma {:induction false} BrokenLinesFit(s: string)
    requires Free(s, IsBlank)
    ensures forall k :: 0 <= k < |SplitCrlf(Broken(s))| ==>
      |SplitCrlf(Broken(s))[k]| <= LIMIT + if k == 0 then 0 else 2
  {
    if |s| <= LIMIT {
      SplitPiece(s);
    } else {
      var a, b := s[..LIMIT], s[LIMIT..];
      BrokenLinesFit(b);
      SplitPiece(a);
      SplitAppend(a, "  " + Broken(b));
      SplitPrefix("  ", Broken(b));
      Assoc(a, CRLF, "  ");
      Assoc(a + CRLF, "  ", Broken(b));
      assert a + INDENT + Broken(b) == a + CRLF + ("  " + Broken(b));
    }
  }

  // ---------------------------------------------------------------- the list of names

  predicate PlainName(s: string) {
    s != "" && Free(s, IsSpace) && Without(s, ':') && Without(s, ';') && Without(s, '=')
  }

  predicate PlainNames(hs: seq<string>) { forall i :: 0 <= i < |hs| ==> PlainName(hs[i]) }

  function LowerAll(hs: seq<string>): (r: seq<string>)
    ensures |r| == |hs| && forall i :: 0 <= i < |hs| ==> r[i] == ToLower(hs[i])
  {
    seq(|hs|, i requires 0 <= i < |hs| => ToLower(hs[i]))
  }

  function Tail(hs: seq<string>): string { if hs == [] then "" else ":" + hs[0] + Tail(hs[1..]) }

  lemma {:induction false} JoinIsTail(hs: seq<string>)
    requires hs != []
    ensures JoinChar(hs, ':') == hs[0] + Tail(hs[1..])
  {
    if |hs| == 1 {
      assert hs[0] + "" == hs[0];
    } else {
      JoinIsTail(hs[1..]);
      Assoc(hs[0], ":", hs[1..][0] + Tail(hs[1..][1..]));
      Assoc(":", hs[1..][0], Tail(hs[1..][1..]));
    }
  }

  lemma {:induction false} WrappedVisible(hs: seq<string>, line: string)
    requires PlainNames(hs) && Free(line, IsBlank)
    ensures Remove(Wrapped(hs, false, line), IsBlank) == line + Tail(hs)
  {
    if hs == [] {
      RemoveNothing(line, IsBlank);
      assert line + "" == line;
    } else {
      var rest := hs[1..];
      if |line| + 1 + |hs[0]| > LIMIT {
        var next := "" + ":" + hs[0];
        assert next == ":" + hs[0] && Free(next, IsBlank);
        WrappedVisible(rest, next);
        RemoveAppend(line + INDENT, Wrapped(rest, false, next), IsBlank);
        RemoveIndented(line);
      } else {
        var next := line + ":" + hs[0];
        assert Free(next, IsBlank);
        WrappedVisible(rest, next);
        assert Wrapped(hs, false, line) == "" + Wrapped(rest, false, next) == Wrapped(rest, false, next);
        Assoc(line, ":", hs[0]);
        Assoc(line, ":" + hs[0], Tail(rest));
      }
    }
  }

  lemma {:induction false} RemoveIndented(line: string)
    requires Free(line, IsBlank)
    ensures Remove(line + INDENT, IsBlank) == line
  {
    RemoveAppend(line, INDENT, IsBlank);
    RemoveBlanks(INDENT);
    RemoveNothing(line, IsBlank);
    assert line + "" == line;
  }

  lemma {:induction false} FirstLine(hs: seq<string>)
    requires hs != []
    ensures exists pre, line ::
      Wrapped(hs, true, "") == pre + Wrapped(hs[1..], false, line) && line == hs[0] && (pre == "" || pre == INDENT)
  {
    var pre := if 1 + |hs[0]| > LIMIT then "" + INDENT else "";
    assert "" + "" + hs[0] == hs[0];
    assert pre == "" || pre == INDENT;
    assert Wrapped(hs, true, "") == pre + Wrapped(hs[1..], false, hs[0]);
  }

  lemma {:induction false} RemoveLower(s: string)
    ensures Remove(ToLower(s), IsBlank) == ToLower(Remove(s, IsBlank))
  {
    if s != "" {
      RemoveLower(s[1..]);
      assert ToLower(s)[1..] == ToLower(s[1..]);
      LowerAppend(if IsBlank(s[0]) then "" else [s[0]], Remove(s[1..], IsBlank));
      assert ToLower([s[0]]) == [Lower(s[0])];
      assert IsBlank(Lower(s[0])) == IsBlank(s[0]);
    }
  }

  lemma {:induction false} LowerTail(hs: seq<string>)
    ensures ToLower(Tail(hs)) == Tail(LowerAll(hs))
  {
    if hs != [] {
      LowerTail(hs[1..]);
      LowerAppend(":" + hs[0], Tail(hs[1..]));
      LowerAppend(":", hs[0]);
      assert ToLower(":") == ":";
      assert LowerAll(hs)[1..] == LowerAll(hs[1..]);
    }
  }

  predicate Feed(c: char) { c as int == 11 || c as int == 12 }

  // Trimming removes blanks only from text without vertical tabs and form feeds.
  lemma {:induction false} TrimLeftVisible(s: string)
    requires Free(s, Feed)
    ensures Remove(TrimLeft(s, IsSpace), IsBlank) == Remove(s, IsBlank)
    ensures Free(TrimLeft(s, IsSpace), Feed)
  {
    if s != "" && IsSpace(s[0]) { TrimLeftVisible(s[1..]); }
  }

  lemma {:induction false} TrimRightVisibleKeeps(s: string)
    requires Free(s, Feed)
    ensures Remove(TrimRight(s, IsSpace), IsBlank) == Remove(s, IsBlank)
  {
    if s != "" && IsSpace(s[|s| - 1]) {
      var n := |s| - 1;
      TrimRightVisibleKeeps(s[..n]);
      assert s == s[..n] + [s[n]];
      RemoveAppend(s[..n], [s[n]], IsBlank);
      assert [s[n]][1..] == "";
    }
  }

  lemma {:induction false} TrimSpaceVisible(s: string)
    requires Free(s, Feed)
    ensures Remove(TrimSpace(s), IsBlank) == Remove(s, IsBlank)
  {
    TrimLeftVisible(s);
    TrimRightVisibleKeeps(TrimLeft(s, IsSpace));
  }

  lemma {:induction false} WrappedFree(hs: seq<string>, first: bool, line: string, p: char -> bool)
    requires (forall i :: 0 <= i < |hs| ==> Free(hs[i], p)) && Free(line, p)
    requires !p(':') && !p('\r') && !p('\n') && !p(' ')
    ensures Free(Wrapped(hs, first, line), p)
  {
    if hs != [] {
      var full := |line| + 1 + |hs[0]| > LIMIT;
      WrappedFree(hs[1..], false, (if full then "" else line) + (if first then "" else ":") + hs[0], p);
    }
  }

  lemma {:induction false} TrimFree(s: string, p: char -> bool)
    requires Free(s, p)
    ensures Free(TrimSpace(s), p)
  {
    TrimLeftFree(s, p);
    TrimRightFree(TrimLeft(s, IsSpace), p);
  }

  lemma {:induction false} TrimLeftFree(s: string, p: char -> bool)
    requires Free(s, p)
    ensures Free(TrimLeft(s, IsSpace), p)
  {
    if s != "" && IsSpace(s[0]) { TrimLeftFree(s[1..], p); }
  }

  lemma {:induction false} TrimRightFree(s: string, p: char -> bool)
    requires Free(s, p)
    ensures Free(TrimRight(s, IsSpace), p)
  {
    if s != "" && IsSpace(s[|s| - 1]) { TrimRightFree(s[..|s| - 1], p); }
  }

  lemma {:induction false} TrimSpaceStart(s: string)
    ensures TrimSpace(s) == "" || !IsSpace(TrimSpace(s)[0])
  {
    TrimRightStart(TrimLeft(s, IsSpace));
  }

  lemma {:induction false} TrimRightStart(s: string)
    ensures TrimRight(s, IsSpace) == "" || TrimRight(s, IsSpace)[0] == s[0]
  {
    if s != "" && IsSpace(s[|s| - 1]) { TrimRightStart(s[..|s| - 1]); }
  }

  // Characters that would break a tag value.
  predicate Unsafe(c: char) { c == ';' || c == '=' || Feed(c) }

  lemma {:induction false} FormatNamesSafe(hs: seq<string>)
    requires PlainNames(hs)
    ensures Free(FormatNames(hs), Unsafe)
  {
    forall i | 0 <= i < |hs| ensures Free(hs[i], Unsafe) { assert PlainName(hs[i]); }
    WrappedFree(hs, true, "", Unsafe);
    var w := Wrapped(hs, true, "");
    assert forall i :: 0 <= i < |w| ==> !Unsafe(Lower(w[i]));
    TrimFree(ToLower(w), Unsafe);
  }

  // formatHeaders loses nothing: without the white space it added, its output is the lower-cased list.
  lemma {:induction false} FormatNamesVisible(hs: seq<string>)
    requires PlainNames(hs) && hs != []
    ensures Remove(FormatNames(hs), IsBlank) == JoinChar(LowerAll(hs), ':')
  {
    var w := Wrapped(hs, true, "");
    FirstLine(hs);
    var pre, line :| w == pre + Wrapped(hs[1..], false, line) && line == hs[0] && (pre == "" || pre == INDENT);
    assert PlainName(hs[0]);
    WrappedVisible(hs[1..], hs[0]);
    RemoveBlanks(INDENT);
    RemoveAppend(pre, Wrapped(hs[1..], false, line), IsBlank);
    assert Remove(w, IsBlank) == "" + (hs[0] + Tail(hs[1..]));
    assert "" + (hs[0] + Tail(hs[1..])) == hs[0] + Tail(hs[1..]);
    RemoveLower(w);
    LowerAppend(hs[0], Tail(hs[1..]));
    LowerTail(hs[1..]);
    assert LowerAll(hs)[1..] == LowerAll(hs[1..]);
    JoinIsTail(LowerAll(hs));
    FormatNamesNoFeed(hs);
    TrimSpaceVisible(ToLower(w));
  }

  lemma {:induction false} FormatNamesNoFeed(hs: seq<string>)
    requires PlainNames(hs)
    ensures Free(ToLower(Wrapped(hs, true, "")), Feed)
  {
    forall i | 0 <= i < |hs| ensures Free(hs[i], Feed) { assert PlainName(hs[i]); }
    WrappedFree(hs, true, "", Feed);
    var w := Wrapped(hs, true, "");
    assert forall i :: 0 <= i < |w| ==> !Feed(Lower(w[i]));
  }

  // What h= reads back as.
  lemma {:induction false} NamesReadBack(hs: seq<string>)
    requires PlainNames(hs) && hs != []
    ensures List(TrimSpace(Fold(FormatNames(hs)))) == LowerAll(hs)
  {
    var f := FormatNames(hs);
    FormatNamesSafe(hs);
    FormatNamesVisible(hs);
    FoldVisible(f);
    FoldFree(f, Unsafe);
    assert Free(Fold(f), Feed);
    TrimSpaceVisible(Fold(f));
    forall k | 0 <= k < |hs| ensures Without(LowerAll(hs)[k], ':') {
      assert PlainName(hs[k]);
      assert forall i :: 0 <= i < |hs[k]| ==> Lower(hs[k][i]) != ':';
    }
    SplitCharJoin(LowerAll(hs), ':');
    assert JoinChar(LowerAll(hs), ':') != "" by {
      assert PlainName(hs[0]);
      JoinIsTail(LowerAll(hs));
    }
  }

  // What b= reads back as.
  lemma {:induction false} SignatureReadsBack(sig: seq<Octet>)
    ensures Decode(Remove(TrimSpace(Fold(Broken(Encode(sig)))), IsBlank)) == Ok(sig)
  {
    var e := Encode(sig);
    EncodeSafe(sig);
    EncodeNoFeed(sig);
    BrokenVisible(e);
    BrokenFree(e, Feed);
    FoldVisible(Broken(e));
    FoldFree(Broken(e), Feed);
    TrimSpaceVisible(Fold(Broken(e)));
    Base64.RoundTrip(sig);
  }

  lemma {:induction false} EncodeNoFeed(bs: seq<Octet>)
    ensures Free(Encode(bs), Feed)
  {
    if |bs| >= 3 { EncodeNoFeed(bs[3..]); }
  }
}
