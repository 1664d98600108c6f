/** The standard base64 encoding (section 4 of RFC 4648), as the DKIM code uses it. */
module Base64 {
  import opened Text

  type Octet = n: nat | n < 256
  type Sextet = n: nat | n < 64

  function Digit(n: Sextet): (c: char)
    ensures !IsBlank(c) && c != ';' && c != '='
    ensures c == 'b' ==> n == 27
  {
    if n < 26 then (65 + n) as char
    else if n < 52 then (97 + n - 26) as char
    else if n < 62 then (48 + n - 52) as char
    else if n == 62 then '+' else '/'
  }

  function Value(c: char): (r: Option<Sextet>)
    ensures r.Some? ==> Digit(r.value) == c
  {
    if 'A' <= c <= 'Z' then Some(c as int - 65)
    else if 'a' <= c <= 'z' then Some(c as int - 97 + 26)
    else if '0' <= c <= '9' then Some(c as int - 48 + 52)
    else if c == '+' then Some(62) else if c == '/' then Some(63) else None
  }

  lemma {:induction false} ValueOfDigit(n: Sextet)
    ensures Value(Digit(n)) == Some(n)
  {}

  function First(a: Octet): Sextet { a / 4 }
  function Second(a: Octet, b: Octet): Sextet { a % 4 * 16 + b / 16 }
  function Third(b: Octet, c: Octet): Sextet { b % 16 * 4 + c / 64 }
  function Fourth(c: Octet): Sextet { c % 64 }

  function Encode(bs: seq<Octet>): string {
    if bs == [] then ""
    else if |bs| == 1 then
      [Digit(First(bs[0])), Digit(Second(bs[0], 0)), '=', '=']
    else if |bs| == 2 then
      [Digit(First(bs[0])), Digit(Second(bs[0], bs[1])), Digit(Third(bs[1], 0)), '=']
    else
      [Digit(First(bs[0])), Digit(Second(bs[0], bs[1])), Digit(Third(bs[1], bs[2])), Digit(Fourth(bs[2]))]
      + Encode(bs[3..])
  }

  function Octet1(p: Sextet, q: Sextet): Octet { p * 4 + q / 16 }
  function Octet2(q: Sextet, r: Sextet): Octet { q % 16 * 16 + r / 4 }
  function Octet3(r: Sextet, t: Sextet): Octet { r % 4 * 64 + t }

  // Four characters at a time; padding only in the last group.
  function DecodeGroups(s: string): Result<seq<Octet>, ()> {
    if s == "" then Ok([])
    else if |s| < 4 then Err(())
    else
      var a, b, c, d := Value(s[0]), Value(s[1]), Value(s[2]), Value(s[3]);
      if a.None? || b.None? then Err(())
      else
        var x := Octet1(a.value, b.value);
        if |s| == 4 && s[2] == '=' && s[3] == '=' then Ok([x])
        else if c.None? then Err(())
        else
          var y := Octet2(b.value, c.value);
          if |s| == 4 && s[3] == '=' then Ok([x, y])
          else if d.None? then Err(())
          else
            match DecodeGroups(s[4..])
            case Err(e) => Err(e)
            case Ok(r) => Ok([x, y, Octet3(c.value, d.value)] + r)
  }

  predicate IsLineBreak(c: char) { c == '\r' || c == '\n' }

  // DecodeString ignores line breaks.
  function Decode(s: string): Result<seq<Octet>, ()> { DecodeGroups(Remove(s, IsLineBreak)) }

  // No separator and no white space in encoded text, and never the two characters "b=".
  predicate Safe(s: string) {
    && Free(s, IsBlank) && Without(s, ';')
    && (forall i :: 0 <= i < |s| && s[i] == '=' ==> i > 0 && s[i - 1] != 'b')
  }

  lemma {:induction false} EncodeSafe(bs: seq<Octet>)
    ensures Safe(Encode(bs)) && (bs != [] ==> Encode(bs) != "")
  {
    if |bs| >= 3 {
      EncodeSafe(bs[3..]);
      var s, t := Encode(bs), Encode(bs[3..]);
      assert forall i :: 4 <= i < |s| ==> s[i] == t[i - 4];
    }
  }

  lemma {:induction false} GroupRoundTrip(a: Octet, b: Octet, c: Octet)
    ensures Octet1(First(a), Second(a, b)) == a
    ensures Octet2(Second(a, b), Third(b, c)) == b
    ensures Octet3(Third(b, c), Fourth(c)) == c
  {}

  lemma {:induction false} DecodeFull(p: Sextet, q: Sextet, r: Sextet, t: Sextet, rest: string, bs: seq<Octet>)
    requires DecodeGroups(rest) == Ok(bs)
    ensures DecodeGroups([Digit(p), Digit(q), Digit(r), Digit(t)] + rest)
         == Ok([Octet1(p, q), Octet2(q, r), Octet3(r, t)] + bs)
  {
    var s := [Digit(p), Digit(q), Digit(r), Digit(t)] + rest;
    assert s[4..] == rest;
    ValueOfDigit(p);
    ValueOfDigit(q);
    ValueOfDigit(r);
    ValueOfDigit(t);
  }

  lemma {:induction false} DecodeOne(p: Sextet, q: Sextet)
    ensures DecodeGroups([Digit(p), Digit(q), '=', '=']) == Ok([Octet1(p, q)])
  {
    ValueOfDigit(p);
    ValueOfDigit(q);
  }

  lemma {:induction false} DecodeTwo(p: Sextet, q: Sextet, r: Sextet)
    ensures DecodeGroups([Digit(p), Digit(q), Digit(r), '=']) == Ok([Octet1(p, q), Octet2(q, r)])
  {
    ValueOfDigit(p);
    ValueOfDigit(q);
    ValueOfDigit(r);
  }

  lemma {:induction false} OneRoundTrip(a: Octet)
    ensures DecodeGroups(Encode([a])) == Ok([a])
  {
    assert Encode([a]) == [Digit(First(a)), Digit(Second(a, 0)), '=', '='];
    GroupRoundTrip(a, 0, 0);
    DecodeOne(First(a), Second(a, 0));
  }

  lemma {:induction false} TwoRoundTrip(a: Octet, b: Octet)
    ensures DecodeGroups(Encode([a, b])) == Ok([a, b])
  {
    assert Encode([a, b]) == [Digit(First(a)), Digit(Second(a, b)), Digit(Third(b, 0)), '='];
    GroupRoundTrip(a, b, 0);
    DecodeTwo(First(a), Second(a, b), Third(b, 0));
  }

  lemma {:induction false} LongRoundTrip(a: Octet, b: Octet, c: Octet, rest: seq<Octet>)
    requires DecodeGroups(Encode(rest)) == Ok(rest)
    ensures DecodeGroups(Encode([a, b, c] + rest)) == Ok([a, b, c] + rest)
  {
    GroupRoundTrip(a, b, c);
    DecodeFull(First(a), Second(a, b), Third(b, c), Fourth(c), Encode(rest), rest);
    assert ([a, b, c] + rest)[3..] == rest;
  }

  lemma {:induction false} DecodeGroupsOfEncode(bs: seq<Octet>)
    ensures DecodeGroups(Encode(bs)) == Ok(bs)
  {
    if |bs| == 0 {
      assert bs == [];
    } else if |bs| == 1 {
      assert bs == [bs[0]];
      OneRoundTrip(bs[0]);
    } else if |bs| == 2 {
      assert bs == [bs[0], bs[1]];
      TwoRoundTrip(bs[0], bs[1]);
    } else {
      assert bs == [bs[0], bs[1], bs[2]] + bs[3..];
      DecodeGroupsOfEncode(bs[3..]);
      LongRoundTrip(bs[0], bs[1], bs[2], bs[3..]);
    }
  }

  lemma {:induction false} RoundTrip(bs: seq<Octet>)
    ensures Decode(Encode(bs)) == Ok(bs)
  {
    EncodeSafe(bs);
    RemoveNothing(Encode(bs), IsLineBreak);
    DecodeGroupsOfEncode(bs);
  }

  // ---------------------------------------------------------------- what is accepted

  predicate AllDigits(s: string) { forall i :: 0 <= i < |s| ==> Value(s[i]).Some? }

  predicate Padding(s: string) { s == "" || s == "=" || s == "==" }

  // Groups of four digits, the last of which may end in one or two "=".
  ghost predicate IsBase64(s: string) {
    |s| % 4 == 0 && exists digits, pad :: s == digits + pad && AllDigits(digits) && Padding(pad)
  }

  lemma {:induction false} LastGroup(s: string)
    requires |s| == 4
    ensures IsBase64(s) <==>
      && Value(s[0]).Some? && Value(s[1]).Some?
      && ((s[2] == '=' && s[3] == '=') || (Value(s[2]).Some? && (s[3] == '=' || Value(s[3]).Some?)))
  {
    if digits, pad :| s == digits + pad && AllDigits(digits) && Padding(pad) {
      assert forall i :: 0 <= i < |digits| ==> s[i] == digits[i];
    }
    assert s == s[..2] + s[2..] == s[..3] + s[3..] == s + "";
  }

  lemma {:induction false} MoreGroups(s: string)
    requires |s| > 4
    ensures IsBase64(s) <==> AllDigits(s[..4]) && IsBase64(s[4..])
  {
    var rest := s[4..];
    if IsBase64(s) {
      var digits, pad :| s == digits + pad && AllDigits(digits) && Padding(pad);
      assert |digits| >= 4;
      assert rest == digits[4..] + pad && s[..4] == digits[..4];
    }
    if AllDigits(s[..4]) && IsBase64(rest) {
      var digits, pad :| rest == digits + pad && AllDigits(digits) && Padding(pad);
      assert s == (s[..4] + digits) + pad;
    }
  }

  lemma {:induction false} DecodeMeaning(s: string)
    ensures DecodeGroups(s).Ok? <==> IsBase64(s)
  {
    if s == "" {
      assert s == "" + "";
    } else if |s| == 4 {
      LastGroup(s);
      assert s[4..] == "";
    } else if |s| > 4 {
      MoreGroups(s);
      DecodeMeaning(s[4..]);
      assert AllDigits(s[..4]) <==> Value(s[0]).Some? && Value(s[1]).Some? && Value(s[2]).Some? && Value(s[3]).Some?;
    }
  }

  // Line breaks do not matter.
  lemma {:induction false} BreaksAreIgnored(a: string, c: char, b: string)
    requires c == '\r' || c == '\n'
    ensures Decode(a + [c] + b) == Decode(a + b)
  {
    RemoveAppend(a + [c], b, IsLineBreak);
    RemoveAppend(a, [c], IsLineBreak);
    RemoveAppend(a, b, IsLineBreak);
    assert [c][1..] == "" && Remove([c], IsLineBreak) == "";
    assert Remove(a, IsLineBreak) + "" == Remove(a, IsLineBreak);
  }

  // The same digits, but for the one before the padding, some bits of which say nothing.
  predicate SameDigits(e: string, s: string) {
    |e| == |s| && forall i :: 0 <= i < |s| && !BeforePadding(s, i) ==> e[i] == s[i]
  }

  predicate BeforePadding(s: string, i: nat) { i + 1 < |s| && s[i] != '=' && s[i + 1] == '=' }

  // The decoded octets are written with the same digits.
  lemma {:induction false} DecodedDigits(s: string)
    requires DecodeGroups(s).Ok?
    ensures SameDigits(Encode(DecodeGroups(s).value), s)
  {
    if |s| == 4 && s[3] == '=' {
      PaddedGroup(s);
    } else if s != "" {
      DecodedDigits(s[4..]);
      WholeGroup(s);
    }
  }

  lemma {:induction false} PaddedGroup(s: string)
    requires DecodeGroups(s).Ok? && |s| == 4 && s[3] == '='
    ensures SameDigits(Encode(DecodeGroups(s).value), s)
  {
    var a, b := Value(s[0]).value, Value(s[1]).value;
    if s[2] == '=' { DigitsBack(a, b, 0, 0); } else { DigitsBack(a, b, Value(s[2]).value, 0); }
  }

  lemma {:induction false} WholeGroup(s: string)
    requires DecodeGroups(s).Ok? && |s| >= 4 && (|s| > 4 || s[3] != '=')
    ensures DecodeGroups(s[4..]).Ok?
    ensures SameDigits(Encode(DecodeGroups(s[4..]).value), s[4..]) ==> SameDigits(Encode(DecodeGroups(s).value), s)
  {
    var p, q, r, t := Value(s[0]).value, Value(s[1]).value, Value(s[2]).value, Value(s[3]).value;
    var rest := DecodeGroups(s[4..]).value;
    var bs := [Octet1(p, q), Octet2(q, r), Octet3(r, t)] + rest;
    assert bs[3..] == rest;
    DigitsBack(p, q, r, t);
    assert Encode(bs) == [s[0], s[1], s[2], s[3]] + Encode(rest);
    assert s == [s[0], s[1], s[2], s[3]] + s[4..];
    if SameDigits(Encode(rest), s[4..]) { SameDigitsCons([s[0], s[1], s[2], s[3]], Encode(rest), s[4..]); }
  }

  lemma {:induction false} SameDigitsCons(x: string, e: string, s: string)
    requires SameDigits(e, s)
    ensures SameDigits(x + e, x + s)
  {
    var e', s' := x + e, x + s;
    forall i | 0 <= i < |s'| && !BeforePadding(s', i) ensures e'[i] == s'[i] {
      if i >= |x| {
        var j := i - |x|;
        assert s'[i] == s[j] && e'[i] == e[j] && (j + 1 < |s| ==> s'[i + 1] == s[j + 1]);
        assert !BeforePadding(s, j);
      }
    }
  }

  lemma {:induction false} DigitsBack(p: Sextet, q: Sextet, r: Sextet, t: Sextet)
    ensures First(Octet1(p, q)) == p && Second(Octet1(p, q), Octet2(q, r)) == q
    ensures Third(Octet2(q, r), Octet3(r, t)) == r && Fourth(Octet3(r, t)) == t
  {}
}
