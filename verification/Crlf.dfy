/** internal/normalize/normalize.go and internal/envelope/envelope.go: line endings, addresses, added headers. */
module Crlf {
  import opened Text
  import opened Message

  predicate EndsCr(s: string) { s != "" && s[|s| - 1] == '\r' }

  // ---------------------------------------------------------------- ToCRLF

  // One line and its line break.
  function Ended(line: string): string { line + (if EndsCr(line) then "" else "\r") + "\n" }

  function WithBreaks(ls: seq<string>): string
    requires ls != []
  {
    if |ls| == 1 then ls[0] else Ended(ls[0]) + WithBreaks(ls[1..])
  }

  function ToCrlf(s: string): string { WithBreaks(SplitChar(s, '\n')) }

  // ToCRLF and StringToCRLF: the loop over the lines.
  method ToCRLF(s: string) returns (b: string)
    ensures b == ToCrlf(s)
  {
    var lines := SplitChar(s, '\n');
    b := "";
    var i := 0;
    while true
      invariant 0 <= i < |lines|
      invariant b + WithBreaks(lines[i..]) == ToCrlf(s)
      decreases |lines| - i
    {
      var line := lines[i];
      ghost var before := b;
      b := b + line;
      if i == |lines| - 1 {
        break;
      }
      if !EndsCr(line) {
        b := b + "\r";
      }
      b := b + "\n";
      assert lines[i..][1..] == lines[i + 1..];
      assert b == before + Ended(line);
      Assoc(before, Ended(line), WithBreaks(lines[i + 1..]));
      i := i + 1;
    }
  }

  lemma {:induction false} SplitAtBreak(a: string, b: string)
    ensures SplitChar(a + "\n" + b, '\n') == SplitChar(a, '\n') + SplitChar(b, '\n')
  {
    var s := a + "\n" + b;
    if a == "" {
      assert s[1..] == b;
    } else {
      assert s[1..] == a[1..] + "\n" + b;
      SplitAtBreak(a[1..], b);
    }
  }

  // All lines ended.
  function AllEnded(ls: seq<string>): string {
    if ls == [] then "" else Ended(ls[0]) + AllEnded(ls[1..])
  }

  lemma {:induction false} WithBreaksAppend(a: seq<string>, b: seq<string>)
    requires b != []
    ensures WithBreaks(a + b) == AllEnded(a) + WithBreaks(b)
  {
    if a == [] {
      assert a + b == b;
    } else {
      assert (a + b)[1..] == a[1..] + b;
      WithBreaksAppend(a[1..], b);
      Assoc(Ended(a[0]), AllEnded(a[1..]), WithBreaks(b));
    }
  }

  // Conversion distributes over a cut behind a line break.
  lemma {:induction false} ToCrlfAppend(a: string, b: string)
    ensures ToCrlf(a + "\n" + b) == ToCrlf(a + "\n") + ToCrlf(b)
  {
    SplitAtBreak(a, b);
    SplitAtBreak(a, "");
    assert a + "\n" + "" == a + "\n";
    var ls := SplitChar(a, '\n');
    WithBreaksAppend(ls, SplitChar(b, '\n'));
    WithBreaksAppend(ls, [""]);
    assert AllEnded(ls) + "" == AllEnded(ls);
  }

  lemma {:induction false} ToCrlfLine(l: string)
    requires Without(l, '\n')
    ensures ToCrlf(l) == l && ToCrlf(l + "\n") == Ended(l)
  {
    SplitCharPiece(l, '\n');
    SplitAtBreak(l, "");
    assert l + "\n" + "" == l + "\n";
    assert [l] + [""] == [l, ""];
    var two := [l, ""];
    assert two[1..] == [""];
    assert WithBreaks(two) == Ended(l) + WithBreaks([""]) == Ended(l);
  }

  lemma {:induction false} EndedTwice(l: string)
    requires Without(l, '\n')
    ensures ToCrlf(Ended(l)) == Ended(l)
  {
    var m := if EndsCr(l) then l else l + "\r";
    assert Ended(l) == m + "\n" by { if EndsCr(l) { assert l + "" == l; } }
    ToCrlfLine(m);
    assert m + "" == m;
  }

  lemma {:induction false} WithBreaksTwice(ls: seq<string>)
    requires ls != [] && forall k :: 0 <= k < |ls| ==> Without(ls[k], '\n')
    ensures ToCrlf(WithBreaks(ls)) == WithBreaks(ls)
  {
    if |ls| == 1 {
      ToCrlfLine(ls[0]);
    } else {
      WithBreaksTwice(ls[1..]);
      var m := if EndsCr(ls[0]) then ls[0] else ls[0] + "\r";
      assert Ended(ls[0]) == m + "\n" by { if EndsCr(ls[0]) { assert ls[0] + "" == ls[0]; } }
      ToCrlfAppend(m, WithBreaks(ls[1..]));
      EndedTwice(ls[0]);
    }
  }

  // ToCRLF is idempotent.
  lemma {:induction false} ToCrlfTwice(s: string)
    ensures ToCrlf(ToCrlf(s)) == ToCrlf(s)
  {
    JoinSplitChar(s, '\n');
    WithBreaksTwice(SplitChar(s, '\n'));
  }

  // ---------------------------------------------------------------- whole line breaks

  // Every CR is followed by LF and every LF preceded by CR.
  predicate Paired(s: string) {
    && (forall i :: 0 <= i < |s| && s[i] == '\r' ==> i + 1 < |s| && s[i + 1] == '\n')
    && (forall i :: 0 <= i < |s| && s[i] == '\n' ==> i > 0 && s[i - 1] == '\r')
  }

  lemma {:induction false} PairedTail(s: string, n: nat)
    requires Paired(s) && n <= |s| && (n < |s| ==> s[n] != '\n')
    ensures Paired(s[n..])
  {
    var t := s[n..];
    forall i | 0 <= i < |t|
      ensures t[i] == '\r' ==> i + 1 < |t| && t[i + 1] == '\n'
      ensures t[i] == '\n' ==> i > 0 && t[i - 1] == '\r'
    {
      assert t[i] == s[n + i];
    }
  }

  lemma {:induction false} PairedAppend(a: string, b: string)
    requires Paired(a) && Paired(b)
    ensures Paired(a + b)
  {
    var t := a + b;
    forall i | 0 <= i < |t|
      ensures t[i] == '\r' ==> i + 1 < |t| && t[i + 1] == '\n'
      ensures t[i] == '\n' ==> i > 0 && t[i - 1] == '\r'
    {
      if i >= |a| { assert t[i] == b[i - |a|]; }
    }
  }

  lemma {:induction false} SplitPaired(s: string)
    requires Paired(s)
    ensures forall k :: 0 <= k < |SplitCrlf(s)| ==> Without(SplitCrlf(s)[k], '\r') && Without(SplitCrlf(s)[k], '\n')
    decreases |s|
  {
    if s == "" {
    } else if StartsCrlf(s) {
      assert |s| > 2 ==> s[2] != '\n';
      PairedTail(s, 2);
      SplitPaired(s[2..]);
    } else {
      assert s[0] != '\r' && s[0] != '\n';
      assert |s| > 1 ==> s[1] != '\n';
      PairedTail(s, 1);
      SplitPaired(s[1..]);
    }
  }

  // ---------------------------------------------------------------- addresses

  // envelope.Split
  function Split(addr: string): (string, string) {
    match Cut(addr, '@') case None => (addr, "") case Some(p) => p
  }

  function UserOf(addr: string): string { Split(addr).0 }
  function DomainOf(addr: string): string { Split(addr).1 }

  predicate DomainIn(addr: string, locals: set<string>) { DomainOf(addr) == "" || DomainOf(addr) in locals }

  lemma {:induction false} SplitAddress(user: string, domain: string)
    requires Without(user, '@')
    ensures Split(user + "@" + domain) == (user, domain)
  {
    CutAt(user, domain, '@');
  }

  // An address is cut at its first "@"; without one it is all user.
  lemma {:induction false} SplitMeaning(addr: string, user: string, domain: string)
    ensures Split(addr) == (user, domain) <==>
      || (Without(user, '@') && addr == user + "@" + domain)
      || (Without(addr, '@') && user == addr && domain == "")
  {
    if Without(user, '@') && addr == user + "@" + domain {
      CutAt(user, domain, '@');
    }
  }

  // ---------------------------------------------------------------- AddHeader

  // strings.Replace(v, "\n", "\n\t", -1)
  function Indent(v: string): string {
    if v == "" then "" else (if v[0] == '\n' then "\n\t" else [v[0]]) + Indent(v[1..])
  }

  function HeaderValue(v: string): string {
    Indent(if v != "" && v[|v| - 1] == '\n' then v[..|v| - 1] else v)
  }

  function AddHeader(data: string, k: string, v: string): string { k + ": " + HeaderValue(v) + "\n" + data }

  lemma {:induction false} IndentLines(v: string)
    ensures Tabbed(SplitChar(v, '\n'), SplitChar(Indent(v), '\n'))
  {
    if v != "" {
      IndentLines(v[1..]);
      if v[0] == '\n' {
        IndentBreak(v);
        TabbedMore(SplitChar(v[1..], '\n'), SplitChar(Indent(v[1..]), '\n'));
      } else {
        assert Indent(v)[1..] == Indent(v[1..]);
      }
    }
  }

  lemma {:induction false} IndentBreak(v: string)
    requires v != "" && v[0] == '\n'
    ensures var m := SplitChar(Indent(v[1..]), '\n');
      SplitChar(Indent(v), '\n') == [""] + (["\t" + m[0]] + m[1..])
  {
    var t := Indent(v[1..]);
    assert ("\t" + t)[1..] == t;
    assert Indent(v)[1..] == "\t" + t;
  }

  lemma {:induction false} TabbedMore(l: seq<string>, m: seq<string>)
    requires Tabbed(l, m)
    ensures Tabbed([""] + l, [""] + (["\t" + m[0]] + m[1..]))
  {}

  // The same lines, each but the first after a tab.
  predicate Tabbed(l: seq<string>, m: seq<string>) {
    |m| == |l| > 0 && m[0] == l[0] && forall i :: 1 <= i < |m| ==> m[i] == "\t" + l[i]
  }

  // The first k lines of a value, as they come out with CRLF.
  function TrimCr(s: string): string { if EndsCr(s) then s[..|s| - 1] else s }

  lemma {:induction false} EndedIs(l: string)
    ensures Ended(l) == TrimCr(l) + CRLF
  {
    if EndsCr(l) {
      assert l == TrimCr(l) + "\r";
      assert l + "" == l;
    }
  }

  function TrimAll(ls: seq<string>): (r: seq<string>)
    ensures |r| == |ls| && forall i :: 0 <= i < |ls| ==> r[i] == TrimCr(ls[i])
  {
    seq(|ls|, i requires 0 <= i < |ls| => TrimCr(ls[i]))
  }

  lemma {:induction false} AllEndedJoined(ls: seq<string>)
    requires ls != []
    ensures AllEnded(ls) == JoinCrlf(TrimAll(ls)) + CRLF
  {
    EndedIs(ls[0]);
    if |ls| == 1 {
      assert Ended(ls[0]) + "" == Ended(ls[0]);
    } else {
      AllEndedJoined(ls[1..]);
      assert TrimAll(ls)[1..] == TrimAll(ls[1..]);
      Assoc(TrimCr(ls[0]) + CRLF, JoinCrlf(TrimAll(ls[1..])), CRLF);
    }
  }

  lemma {:induction false} NoLfNoCrlf(s: string)
    requires Without(s, '\n')
    ensures NoCrlf(s)
  {}

  // Any text with a line break behind it becomes lines joined by CRLF.
  lemma {:induction false} BrokenText(x: string, d: string)
    ensures ToCrlf(x + "\n" + d) == JoinCrlf(TrimAll(SplitChar(x, '\n'))) + CRLF + ToCrlf(d)
  {
    SplitAtBreak(x, d);
    WithBreaksAppend(SplitChar(x, '\n'), SplitChar(d, '\n'));
    AllEndedJoined(SplitChar(x, '\n'));
  }

  lemma {:induction false} SplitCharPrefix(p: string, v: string, c: char)
    requires Without(p, c)
    ensures SplitChar(p + v, c) == [p + SplitChar(v, c)[0]] + SplitChar(v, c)[1..]
  {
    if p == "" {
      assert p + v == v && p + SplitChar(v, c)[0] == SplitChar(v, c)[0];
      assert [SplitChar(v, c)[0]] + SplitChar(v, c)[1..] == SplitChar(v, c);
    } else {
      assert (p + v)[1..] == p[1..] + v;
      SplitCharPrefix(p[1..], v, c);
      assert [p[0]] + (p[1..] + SplitChar(v, c)[0]) == p + SplitChar(v, c)[0];
    }
  }

  // The value of the added field as a CRLF reader sees it.
  function FieldValue(v: string): string {
    JoinCrlf(TrimAll(SplitChar(" " + HeaderValue(v), '\n')))
  }

  lemma {:induction false} FieldValueFolded(v: string)
    ensures Folded(FieldValue(v))
  {
    var w := if v != "" && v[|v| - 1] == '\n' then v[..|v| - 1] else v;
    IndentLines(w);
    var h := Indent(w);
    SplitCharPrefix(" ", h, '\n');
    var ls := SplitChar(" " + h, '\n');
    JoinSplitChar(" " + h, '\n');
    var ts := TrimAll(ls);
    forall k | 0 <= k < |ts| ensures NoCrlf(ts[k]) && (k > 0 ==> IsContinuation(ts[k])) {
      NoLfNoCrlf(ts[k]);
      if k > 0 { assert ls[k] == SplitChar(h, '\n')[k]; assert ls[k][0] == '\t'; }
    }
    SplitJoin(ts);
  }

  lemma {:induction false} AddHeaderText(d: string, k: string, v: string)
    requires Without(k, '\n')
    ensures ToCrlf(AddHeader(d, k, v)) == k + ":" + FieldValue(v) + CRLF + ToCrlf(d)
  {
    var h := HeaderValue(v);
    var x := " " + h;
    var p := k + ":";
    assert k + ": " + h == p + x;
    BrokenText(p + x, d);
    SplitCharPrefix(p, x, '\n');
    SplitCharPrefix(" ", h, '\n');
    JoinPrefixed(p, SplitChar(x, '\n'));
  }

  // A prefix of the first line stays in front when the lines are trimmed and joined.
  lemma {:induction false} JoinPrefixed(p: string, ls: seq<string>)
    requires ls != [] && ls[0] != ""
    ensures JoinCrlf(TrimAll([p + ls[0]] + ls[1..])) == p + JoinCrlf(TrimAll(ls))
  {
    TrimPrefixed(p, ls[0]);
    var first, rest := TrimCr(ls[0]), TrimAll(ls)[1..];
    assert TrimAll([p + ls[0]] + ls[1..]) == [p + first] + rest;
    JoinCons(p, first, rest);
    assert [first] + rest == TrimAll(ls);
  }

  lemma {:induction false} TrimPrefixed(p: string, l: string)
    requires l != ""
    ensures TrimCr(p + l) == p + TrimCr(l)
  {
    if EndsCr(l) { assert p + l == p + l[..|l| - 1] + [l[|l| - 1]]; }
  }

  // Adding a header, whatever its value, adds exactly one field in front, and keeps the body exactly when
  // there is an empty line.
  lemma {:induction false} AddedHeaderParses(d: string, k: string, v: string)
    requires FieldName(k) && Parse(ToCrlf(d)).Ok?
    ensures var r, p := Parse(ToCrlf(AddHeader(d, k, v))), Parse(ToCrlf(d)).value;
      && r.Ok?
      && r.value.headers == [Header(k, FieldValue(v), k + ":" + FieldValue(v))] + p.headers
      && (r.value.body == p.body <==> HasEmptyLine(ToCrlf(d)))
  {
    AddHeaderText(d, k, v);
    FieldValueFolded(v);
    ParsePrepended(k, FieldValue(v), ToCrlf(d));
  }
}
