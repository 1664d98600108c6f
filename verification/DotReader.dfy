/** internal/smtpsrv/dotreader.go: reading the DATA of a message up to the line with a single dot
    (section 4.5.2 of RFC 5321). */
module DotReader {
  import opened Text

  // What ends the stream after its last byte.
  datatype End = Eof | Broken
  datatype Outcome = Done | TooLarge | InvalidLineEnding | UnexpectedEof | ReadError

  // ---------------------------------------------------------------- where reading stops

  // A carriage return or line feed that is not part of a pair is noticed at i.
  predicate BareAt(s: string, i: nat)
    requires i < |s|
  {
    || (s[i] == '\n' && (i == 0 || s[i - 1] != '\r'))
    || (s[i] != '\n' && i > 0 && s[i - 1] == '\r')
  }

  // A line with a single dot ends at i.
  predicate DotAt(s: string, i: nat)
    requires i < |s|
  {
    || (i >= 4 && s[i - 4..i + 1] == "\r\n.\r\n")
    || (i == 2 && s[..3] == ".\r\n")
  }

  predicate StopsAt(s: string, i: nat)
    requires i < |s|
  {
    BareAt(s, i) || DotAt(s, i)
  }

  // The first place where reading stops, or |s|.
  predicate IsStop(s: string, i: nat) {
    i <= |s| && (forall j :: 0 <= j < i ==> !StopsAt(s, j)) && (i < |s| ==> StopsAt(s, i))
  }

  function StopFrom(s: string, i: nat): (k: nat)
    requires i <= |s| && forall j :: 0 <= j < i ==> !StopsAt(s, j)
    ensures IsStop(s, k)
    decreases |s| - i
  {
    if i == |s| || StopsAt(s, i) then i else StopFrom(s, i + 1)
  }

  function Stop(s: string): (k: nat)
    ensures IsStop(s, k)
  {
    StopFrom(s, 0)
  }

  lemma {:induction false} OneStop(s: string, i: nat)
    requires IsStop(s, i)
    ensures Stop(s) == i
  {}

  // ---------------------------------------------------------------- what is kept

  // Carriage returns go, and so does a dot at the start of a line.
  function Kept(s: string, start: bool): (r: string)
    ensures |r| <= |s|
  {
    if s == "" then ""
    else (if s[0] == '\r' || (s[0] == '.' && start) then "" else [s[0]]) + Kept(s[1..], s[0] == '\n')
  }

  predicate AtStart(s: string) { s == "" || s[|s| - 1] == '\n' }

  lemma {:induction false} KeptSnoc(s: string, start: bool, c: char)
    ensures Kept(s + [c], start) == Kept(s, start)
      + if c == '\r' || (c == '.' && (if s == "" then start else s[|s| - 1] == '\n')) then "" else [c]
  {
    if s == "" {
      assert (s + [c])[1..] == "";
    } else {
      DropLeft(s, [c], 1);
      KeptSnoc(s[1..], s[0] == '\n', c);
      assert (s + [c])[0] == s[0];
      Assoc(if s[0] == '\r' || (s[0] == '.' && start) then "" else [s[0]], Kept(s[1..], s[0] == '\n'),
            if c == '\r' || (c == '.' && (if s[1..] == "" then s[0] == '\n' else s[|s| - 1] == '\n')) then "" else [c]);
    }
  }

  // At most max bytes are stored.
  function Truncated(s: string, max: int): string {
    if |s| <= max then s else if max < 0 then "" else s[..max]
  }

  lemma {:induction false} TruncatedSnoc(s: string, c: char, max: int)
    ensures Truncated(s + [c], max) == if |Truncated(s, max)| < max then Truncated(s, max) + [c] else Truncated(s, max)
  {
    if 0 <= max <= |s| { assert (s + [c])[..max] == s[..max]; }
  }

  // ---------------------------------------------------------------- the automaton

  datatype Prev = Other | AfterCr | AfterCrlf

  // The last four bytes of the stream so far, zero before its start.
  function Last4(s: string): string { var t := "\0\0\0\0" + s; t[|t| - 4..] }

  lemma {:induction false} Last4Snoc(s: string, c: char)
    ensures Last4(s + [c]) == Last4(s)[1..] + [c]
  {
    var t := "\0\0\0\0" + s;
    assert "\0\0\0\0" + (s + [c]) == t + [c];
  }

  lemma {:induction false} Last4Dot(s: string, n: nat)
    requires n < |s| && s[n] == '\n'
    ensures Last4(s[..n]) == "\r\n.\r" <==> n >= 4 && s[n - 4..n + 1] == "\r\n.\r\n"
    ensures n == 2 ==> (Last4(s[..n]) == "\0\0.\r" <==> s[..3] == ".\r\n")
  {
    var t := "\0\0\0\0" + s[..n];
    var l := Last4(s[..n]);
    if n >= 4 {
      assert l == s[n - 4..n];
      assert s[n - 4..n + 1] == s[n - 4..n] + ['\n'];
      assert s[n - 4..n + 1][..4] == s[n - 4..n];
      assert "\r\n.\r\n"[..4] == "\r\n.\r" && "\r\n.\r" + ['\n'] == "\r\n.\r\n";
    } else {
      assert l[0] == '\0';
    }
    if n == 2 {
      assert l == ['\0', '\0', s[0], s[1]];
      assert s[..3] == [s[0], s[1], s[2]];
    }
  }

  function PrevOf(s: string): Prev {
    if AtStart(s) then AfterCrlf else if s[|s| - 1] == '\r' then AfterCr else Other
  }

  // The states of the automaton say where the stream stands.
  lemma {:induction false} PrevMeans(s: string, n: nat)
    requires n < |s|
    ensures var prev, b := PrevOf(s[..n]), s[n];
      && (BareAt(s, n) <==> (if b == '\n' then prev != AfterCr else prev == AfterCr))
      && PrevOf(s[..n + 1]) == (if b == '\r' then AfterCr else if b == '\n' then AfterCrlf else Other)
  {
    assert n > 0 ==> s[..n][n - 1] == s[n - 1];
    assert s[..n + 1][n] == s[n];
  }

  lemma {:induction false} DotMeans(s: string, n: nat)
    requires n < |s|
    ensures DotAt(s, n) <==>
      s[n] == '\n' && (Last4(s[..n]) == "\r\n.\r" || (n == 2 && Last4(s[..n]) == "\0\0.\r"))
  {
    if s[n] == '\n' {
      Last4Dot(s, n);
    } else {
      if n >= 4 { assert s[n - 4..n + 1][4] == s[n]; }
      if n == 2 { assert s[..3][2] == s[2]; }
    }
  }

  // What is stored and remembered after one more byte.
  lemma {:induction false} OneMore(s: string, n: nat, max: int)
    requires n < |s|
    ensures var b := s[n]; var skip := b == '\r' || (b == '.' && PrevOf(s[..n]) == AfterCrlf);
      var buf := Truncated(Kept(s[..n], true), max);
      && Truncated(Kept(s[..n + 1], true), max) == (if |buf| < max && !skip then buf + [b] else buf)
      && Last4(s[..n + 1]) == Last4(s[..n])[1..] + [b]
  {
    assert s[..n + 1] == s[..n] + [s[n]];
    assert n > 0 ==> s[..n][n - 1] == s[n - 1];
    KeptSnoc(s[..n], true, s[n]);
    TruncatedSnoc(Kept(s[..n], true), s[n], max);
    Last4Snoc(s[..n], s[n]);
  }

  // ---------------------------------------------------------------- the result

  function Consumed(input: string): nat { if Stop(input) < |input| then Stop(input) + 1 else |input| }

  function Data(input: string): string { Kept(input[..Stop(input)], true) }

  function ReadOutcome(input: string, end: End, max: int): Outcome {
    var i := Stop(input);
    if i == |input| then (if end == Eof then UnexpectedEof else ReadError)
    else if BareAt(input, i) then InvalidLineEnding
    else if i != 2 && i + 1 > max then TooLarge
    else Done
  }

  // The state of the loop after n bytes.
  predicate Reading(input: string, n: nat, max: int, prev: Prev, last4: string, buf: string) {
    && n <= |input| && (forall j :: 0 <= j < n ==> !StopsAt(input, j))
    && prev == PrevOf(input[..n]) && last4 == Last4(input[..n]) && buf == Truncated(Kept(input[..n], true), max)
  }

  lemma {:induction false} ReadOne(input: string, n: nat, max: int, prev: Prev, last4: string, buf: string)
    requires n < |input| && Reading(input, n, max, prev, last4, buf) && !StopsAt(input, n)
    ensures var b := input[n]; var skip := b == '\r' || (b == '.' && prev == AfterCrlf);
      Reading(input, n + 1, max, if b == '\r' then AfterCr else if b == '\n' then AfterCrlf else Other,
              last4[1..] + [b], if |buf| < max && !skip then buf + [b] else buf)
  {
    PrevMeans(input, n);
    OneMore(input, n, max);
  }

  // readUntilDot, on the bytes of a stream. Where it stops does not depend on max: at the first bare CR or LF, or
  // right after the first single-dot line; at most max bytes of data are stored.
  method ReadUntilDot(input: string, end: End, max: int) returns (buf: string, consumed: nat, outcome: Outcome)
    ensures consumed == Consumed(input)
    ensures outcome == ReadOutcome(input, end, max)
    ensures buf == Truncated(Data(input), max)
  {
    buf := "";
    var n := 0;
    var prev := AfterCrlf;
    var last4: string := "\0\0\0\0";
    while n < |input|
      invariant Reading(input, n, max, prev, last4, buf)
    {
      var b := input[n];
      PrevMeans(input, n);
      DotMeans(input, n);
      if (if b == '\n' then prev != AfterCr else prev == AfterCr) {
        OneStop(input, n);
        return buf, n + 1, InvalidLineEnding;
      }
      if b == '\n' && last4 == "\r\n.\r" {
        OneStop(input, n);
        Last4Dot(input, n);
        return buf, n + 1, if n + 1 > max then TooLarge else Done;
      }
      if b == '\n' && n + 1 == 3 && last4 == "\0\0.\r" {
        OneStop(input, n);
        EmptyMessage(input[..n]);
        return "", n + 1, Done;
      }
      ReadOne(input, n, max, prev, last4, buf);
      var skip := b == '\r' || (b == '.' && prev == AfterCrlf);
      prev := if b == '\r' then AfterCr else if b == '\n' then AfterCrlf else Other;
      last4 := last4[1..] + [b];
      if |buf| < max && !skip {
        buf := buf + [b];
      }
      n := n + 1;
    }
    OneStop(input, n);
    return buf, n, if end == Eof then UnexpectedEof else ReadError;
  }

  lemma {:induction false} EmptyMessage(s: string)
    requires |s| == 2 && Last4(s) == "\0\0.\r"
    ensures Kept(s, true) == ""
  {
    assert Last4(s) == ['\0', '\0', s[0], s[1]];
    assert s[1..][1..] == "";
  }

  // The three-byte empty message is accepted whatever max is; otherwise a message is too large exactly when more than
  // max bytes were consumed, and a message that is accepted is not truncated.
  lemma {:induction false} SizeLimit(input: string, end: End, max: int)
    requires Stop(input) < |input| && !BareAt(input, Stop(input))
    ensures ReadOutcome(input, end, max) == TooLarge <==> Consumed(input) != 3 && Consumed(input) > max
    ensures ReadOutcome(input, end, max) == Done ==> Truncated(Data(input), max) == Data(input)
  {
    var i := Stop(input);
    if i == 2 {
      assert input[..2] == input[..3][..2];
      Last4Dot(input, 2);
      EmptyMessage(input[..2]);
    }
  }
}
