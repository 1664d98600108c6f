/** Byte strings and the string functions of Go's standard library that the mail code relies on.
    A `char` stands for one byte; letters are folded in ASCII only. */
module Text {

  datatype Option<+T> = None | Some(value: T)
  datatype Result<+T, +E> = Ok(value: T) | Err(error: E)

  const CRLF: string := "\r\n"

  predicate IsWsp(c: char) { c == ' ' || c == '\t' }
  predicate IsBlank(c: char) { IsWsp(c) || c == '\r' || c == '\n' }
  // What strings.TrimSpace trims (ASCII part).
  predicate IsSpace(c: char) { IsBlank(c) || c as int == 11 || c as int == 12 }

  predicate StartsCrlf(s: string) { |s| >= 2 && s[0] == '\r' && s[1] == '\n' }

  predicate NoCrlf(s: string) { forall i :: 0 <= i < |s| - 1 ==> !(s[i] == '\r' && s[i + 1] == '\n') }

  predicate Free(s: string, p: char -> bool) { forall i :: 0 <= i < |s| ==> !p(s[i]) }

  predicate Without(s: string, c: char) { forall i :: 0 <= i < |s| ==> s[i] != c }

  lemma {:induction false} Assoc<T>(a: seq<T>, b: seq<T>, c: seq<T>)
    ensures (a + b) + c == a + (b + c)
  {}

  lemma {:induction false} DropLeft<T>(a: seq<T>, b: seq<T>, n: nat)
    requires n <= |a|
    ensures (a + b)[n..] == a[n..] + b
  {}

  lemma {:induction false} LastOf<T>(a: seq<T>, s: seq<T>)
    requires s != []
    ensures a + s == (a + s[..|s| - 1]) + [s[|s| - 1]]
  {}

  lemma {:induction false} SliceSnoc<T>(s: seq<T>, n: nat)
    requires n < |s|
    ensures s[..n + 1] == s[..n] + [s[n]]
  {}

  lemma {:induction false} NoCrlfPart(s: string, i: nat, j: nat)
    requires NoCrlf(s) && i <= j <= |s|
    ensures NoCrlf(s[i..j])
  {
    var t := s[i..j];
    forall k | 0 <= k < |t| - 1 ensures !(t[k] == '\r' && t[k + 1] == '\n') {
      assert t[k] == s[i + k] && t[k + 1] == s[(i + k) + 1];
    }
  }

  // ---------------------------------------------------------------- lower-casing

  function Lower(c: char): char {
    if 'A' <= c <= 'Z' then ((c as int) + 32) as char else c
  }

  function ToLower(s: string): (r: string)
    ensures |r| == |s|
    ensures forall i :: 0 <= i < |s| ==> r[i] == Lower(s[i])
  {
    seq(|s|, i requires 0 <= i < |s| => Lower(s[i]))
  }

  // strings.EqualFold, ASCII.
  predicate EqualFold(a: string, b: string) { ToLower(a) == ToLower(b) }

  lemma {:induction false} LowerTwice(s: string)
    ensures ToLower(ToLower(s)) == ToLower(s)
  {}

  lemma {:induction false} LowerAppend(a: string, b: string)
    ensures ToLower(a + b) == ToLower(a) + ToLower(b)
  {}

  // ---------------------------------------------------------------- splitting at CRLF

  function SplitCrlf(s: string): (r: seq<string>)
    ensures |r| >= 1
  {
    if s == "" then [""]
    else if StartsCrlf(s) then [""] + SplitCrlf(s[2..])
    else
      var r := SplitCrlf(s[1..]);
      [[s[0]] + r[0]] + r[1..]
  }

  function JoinCrlf(ls: seq<string>): string {
    if ls == [] then "" else if |ls| == 1 then ls[0] else ls[0] + CRLF + JoinCrlf(ls[1..])
  }

  lemma {:induction false} JoinCons(x: string, y: string, rest: seq<string>)
    ensures JoinCrlf([x + y] + rest) == x + JoinCrlf([y] + rest)
  {
    if rest != [] {
      assert ([x + y] + rest)[1..] == rest == ([y] + rest)[1..];
      assert (x + y) + CRLF + JoinCrlf(rest) == x + (y + CRLF + JoinCrlf(rest));
    }
  }

  lemma {:induction false} JoinSplit(s: string)
    ensures JoinCrlf(SplitCrlf(s)) == s
  {
    if s == "" {
    } else if StartsCrlf(s) {
      JoinSplit(s[2..]);
      assert SplitCrlf(s)[1..] == SplitCrlf(s[2..]);
      assert s == CRLF + s[2..];
    } else {
      JoinSplit(s[1..]);
      var r := SplitCrlf(s[1..]);
      JoinCons([s[0]], r[0], r[1..]);
      assert [r[0]] + r[1..] == r;
      assert s == [s[0]] + s[1..];
    }
  }

  lemma {:induction false} SplitAppend(a: string, b: string)
    ensures SplitCrlf(a + CRLF + b) == SplitCrlf(a) + SplitCrlf(b)
  {
    var s := a + CRLF + b;
    if a == "" {
      assert s == CRLF + b;
      assert s[2..] == b;
    } else if StartsCrlf(a) {
      assert s[2..] == a[2..] + CRLF + b;
      SplitAppend(a[2..], b);
    } else {
      assert s[1..] == a[1..] + CRLF + b;
      assert !StartsCrlf(s);
      SplitAppend(a[1..], b);
    }
  }

  lemma {:induction false} SplitPieces(s: string)
    ensures forall k :: 0 <= k < |SplitCrlf(s)| ==> NoCrlf(SplitCrlf(s)[k])
    ensures |s| > 0 && !StartsCrlf(s) ==> |SplitCrlf(s)[0]| > 0 && SplitCrlf(s)[0][0] == s[0]
  {
    if s == "" {
    } else if StartsCrlf(s) {
      SplitPieces(s[2..]);
    } else {
      SplitPieces(s[1..]);
      var r := SplitCrlf(s[1..]);
      var x := [s[0]] + r[0];
      forall i | 0 <= i < |x| - 1 ensures !(x[i] == '\r' && x[i + 1] == '\n') {
        if i > 0 { assert x[i] == r[0][i - 1]; }
      }
    }
  }

  lemma {:induction false} SplitPiece(s: string)
    requires NoCrlf(s)
    ensures SplitCrlf(s) == [s]
  {
    if s != "" {
      assert forall i :: 0 <= i < |s[1..]| - 1 ==> s[1..][i] == s[i + 1];
      SplitPiece(s[1..]);
      assert [s[0]] + s[1..] == s;
      assert !StartsCrlf(s) by { if |s| >= 2 { assert !(s[0] == '\r' && s[0 + 1] == '\n'); } }
    }
  }

  lemma {:induction false} SplitJoin(ls: seq<string>)
    requires |ls| >= 1 && forall k :: 0 <= k < |ls| ==> NoCrlf(ls[k])
    ensures SplitCrlf(JoinCrlf(ls)) == ls
  {
    SplitPiece(ls[0]);
    if |ls| > 1 {
      SplitJoin(ls[1..]);
      SplitAppend(ls[0], JoinCrlf(ls[1..]));
    }
  }

  lemma {:induction false} JoinAppend(a: seq<string>, b: seq<string>)
    requires a != [] && b != []
    ensures JoinCrlf(a + b) == JoinCrlf(a) + CRLF + JoinCrlf(b)
  {
    if |a| == 1 {
      assert (a + b)[1..] == b;
    } else {
      assert (a + b)[1..] == a[1..] + b;
      JoinAppend(a[1..], b);
    }
  }

  // ---------------------------------------------------------------- splitting at one character

  function SplitChar(s: string, c: char): (r: seq<string>)
    ensures |r| >= 1
  {
    if s == "" then [""]
    else if s[0] == c then [""] + SplitChar(s[1..], c)
    else
      var r := SplitChar(s[1..], c);
      [[s[0]] + r[0]] + r[1..]
  }

  function JoinChar(ls: seq<string>, c: char): string {
    if ls == [] then "" else if |ls| == 1 then ls[0] else ls[0] + [c] + JoinChar(ls[1..], c)
  }

  lemma {:induction false} SplitCharPiece(s: string, c: char)
    requires Without(s, c)
    ensures SplitChar(s, c) == [s]
  {
    if s != "" {
      SplitCharPiece(s[1..], c);
      assert [s[0]] + s[1..] == s;
    }
  }

  lemma {:induction false} SplitCharAppend(a: string, b: string, c: char)
    requires Without(a, c)
    ensures SplitChar(a + [c] + b, c) == [a] + SplitChar(b, c)
  {
    var s := a + [c] + b;
    if a == "" {
      assert s[1..] == b;
    } else {
      assert s[1..] == a[1..] + [c] + b;
      SplitCharAppend(a[1..], b, c);
      assert [a[0]] + a[1..] == a;
    }
  }

  lemma {:induction false} SplitCharJoin(ls: seq<string>, c: char)
    requires |ls| >= 1 && forall k :: 0 <= k < |ls| ==> Without(ls[k], c)
    ensures SplitChar(JoinChar(ls, c), c) == ls
  {
    if |ls| == 1 {
      SplitCharPiece(ls[0], c);
    } else {
      SplitCharJoin(ls[1..], c);
      SplitCharAppend(ls[0], JoinChar(ls[1..], c), c);
    }
  }

  lemma {:induction false} JoinSplitChar(s: string, c: char)
    ensures JoinChar(SplitChar(s, c), c) == s
    ensures forall k :: 0 <= k < |SplitChar(s, c)| ==> Without(SplitChar(s, c)[k], c)
  {
    if s != "" {
      JoinSplitChar(s[1..], c);
      var r := SplitChar(s[1..], c);
      assert s == [s[0]] + s[1..];
      if s[0] == c {
        assert SplitChar(s, c)[1..] == r;
      } else {
        assert SplitChar(s, c)[1..] == r[1..];
        if |r| > 1 {
          assert ([s[0]] + r[0]) + [c] + JoinChar(r[1..], c) == [s[0]] + (r[0] + [c] + JoinChar(r[1..], c));
        }
      }
    }
  }

  // ---------------------------------------------------------------- searching, cutting, trimming

  // Index of the first c in s, or |s|.
  function IndexOf(s: string, c: char): (i: nat)
    ensures i <= |s| && Without(s[..i], c) && (i < |s| ==> s[i] == c)
  {
    if s == "" || s[0] == c then 0 else 1 + IndexOf(s[1..], c)
  }

  // strings.Cut at one character.
  function Cut(s: string, c: char): (r: Option<(string, string)>)
    ensures r.None? <==> Without(s, c)
    ensures r.Some? ==> s == r.value.0 + [c] + r.value.1 && Without(r.value.0, c)
  {
    var i := IndexOf(s, c);
    if i < |s| then Some((s[..i], s[i + 1..])) else assert s[..i] == s; None
  }

  lemma {:induction false} CutAt(a: string, b: string, c: char)
    requires Without(a, c)
    ensures Cut(a + [c] + b, c) == Some((a, b))
  {
    var s := a + [c] + b;
    assert s[|a|] == c;
    var x := Cut(s, c).value;
    assert |x.0| >= |a| by { assert s[|x.0|] == c; }
    assert |x.0| <= |a| by { assert forall i :: 0 <= i < |x.0| ==> x.0[i] == s[i]; }
    assert x.0 == s[..|a|] == a && x.1 == s[|a| + 1..] == b;
  }

  function TrimLeft(s: string, p: char -> bool): (r: string)
    ensures r == "" || !p(r[0])
  {
    if s != "" && p(s[0]) then TrimLeft(s[1..], p) else s
  }

  function TrimRight(s: string, p: char -> bool): (r: string)
    ensures r == "" || !p(r[|r| - 1])
  {
    if s != "" && p(s[|s| - 1]) then TrimRight(s[..|s| - 1], p) else s
  }

  // Trimming takes away the longest stretch of such characters, and nothing else.
  lemma {:induction false} TrimRightMeaning(s: string, p: char -> bool)
    ensures var r := TrimRight(s, p); r <= s && forall i :: |r| <= i < |s| ==> p(s[i])
  {
    if s != "" && p(s[|s| - 1]) { TrimRightMeaning(s[..|s| - 1], p); }
  }

  lemma {:induction false} TrimLeftMeaning(s: string, p: char -> bool)
    ensures var r := TrimLeft(s, p); |r| <= |s| && r == s[|s| - |r|..] && forall i :: 0 <= i < |s| - |r| ==> p(s[i])
  {
    if s != "" && p(s[0]) { TrimLeftMeaning(s[1..], p); }
  }

  function TrimSpace(s: string): string { TrimRight(TrimLeft(s, IsSpace), IsSpace) }

  predicate Spaces(s: string) { forall i :: 0 <= i < |s| ==> IsSpace(s[i]) }

  // A text is what TrimSpace leaves, with white space around it.
  lemma {:induction false} TrimSpaceMeaning(s: string) returns (before: string, after: string)
    ensures s == before + TrimSpace(s) + after && Spaces(before) && Spaces(after)
    ensures var t := TrimSpace(s); t == "" || (!IsSpace(t[0]) && !IsSpace(t[|t| - 1]))
  {
    var l := TrimLeft(s, IsSpace);
    TrimLeftMeaning(s, IsSpace);
    TrimRightMeaning(l, IsSpace);
    before, after := s[..|s| - |l|], l[|TrimSpace(s)|..];
  }

  lemma {:induction false} TrimLeftPad(w: string, s: string, p: char -> bool)
    requires forall i :: 0 <= i < |w| ==> p(w[i])
    ensures TrimLeft(w + s, p) == TrimLeft(s, p)
  {
    if w == "" {
      assert w + s == s;
    } else {
      assert (w + s)[1..] == w[1..] + s;
      TrimLeftPad(w[1..], s, p);
    }
  }

  // Remove every character with property p (strings.NewReplacer with empty replacements).
  function Remove(s: string, p: char -> bool): (r: string)
    ensures Free(r, p)
  {
    if s == "" then "" else (if p(s[0]) then "" else [s[0]]) + Remove(s[1..], p)
  }

  lemma {:induction false} RemoveAppend(a: string, b: string, p: char -> bool)
    ensures Remove(a + b, p) == Remove(a, p) + Remove(b, p)
  {
    if a == "" {
      assert a + b == b;
    } else {
      assert (a + b)[1..] == a[1..] + b;
      RemoveAppend(a[1..], b, p);
    }
  }

  lemma {:induction false} RemoveNothing(s: string, p: char -> bool)
    requires Free(s, p)
    ensures Remove(s, p) == s
  {
    if s != "" {
      RemoveNothing(s[1..], p);
      assert s == [s[0]] + s[1..];
    }
  }
}
