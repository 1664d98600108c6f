/** internal/aliases/aliases.go, parseReader and parseRHS: which lines and right sides are accepted, and what they
    say. */
module AliasMeaning {
  import opened Text
  import opened AliasResolve
  import opened AliasRight
  import opened AliasFile

  // ---------------------------------------------------------------- lines

  // A line "user: right side", with both there and no "@" on the left.
  ghost predicate IsAlias(text: string, lhs: string, raw: string) {
    exists a, b :: TrimSpace(text) == a + ":" + b && Without(a, ':') && (a == "" || a[0] != '#')
                && lhs == TrimSpace(a) && raw == TrimSpace(b) && lhs != "" && raw != "" && Without(lhs, '@')
  }

  // An empty line or a comment.
  predicate IsBlankLine(text: string) { TrimSpace(text) == "" || TrimSpace(text)[0] == '#' }

  // A line is an alias, or it is skipped, or it is refused.
  lemma {:induction false} LineMeaning(text: string, lhs: string, raw: string)
    ensures ReadLine(text) == Alias(lhs, raw) <==> IsAlias(text, lhs, raw)
    ensures ReadLine(text) == Blank <==> IsBlankLine(text)
  {
    var line := TrimSpace(text);
    if IsAlias(text, lhs, raw) {
      var a, b :| line == a + ":" + b && Without(a, ':') && (a == "" || a[0] != '#')
               && lhs == TrimSpace(a) && raw == TrimSpace(b) && lhs != "" && raw != "" && Without(lhs, '@');
      CutAt(a, b, ':');
      assert a != "";
    }
    if ReadLine(text) == Alias(lhs, raw) {
      var sp := Cut(line, ':').value;
      assert line == sp.0 + ":" + sp.1;
      assert sp.0 != "" ==> sp.0[0] == line[0];
    }
  }

  // ---------------------------------------------------------------- recipients

  predicate OccursAt(s: string, sep: string, i: nat) { i + |sep| <= |s| && s[i..i + |sep|] == sep }

  // The separator first occurs between a and b.
  predicate CutsInto(s: string, sep: string, a: string, b: string) {
    s == a + sep + b && forall i :: 0 <= i < |a| ==> !OccursAt(s, sep, i)
  }

  lemma {:induction false} OccursLater(s: string, sep: string, i: nat)
    requires s != ""
    ensures OccursAt(s, sep, i + 1) <==> OccursAt(s[1..], sep, i)
  {
    if i + 1 + |sep| <= |s| { assert s[i + 1..i + 1 + |sep|] == s[1..][i..i + |sep|]; }
  }

  lemma {:induction false} CutTextSome(s: string, sep: string)
    requires sep != "" && CutText(s, sep).Some?
    ensures CutsInto(s, sep, CutText(s, sep).value.0, CutText(s, sep).value.1)
  {
    if s[..|sep|] == sep {
      assert s == "" + sep + s[|sep|..];
    } else {
      CutTextSome(s[1..], sep);
      var p := CutText(s[1..], sep).value;
      assert s == [s[0]] + s[1..] == ([s[0]] + p.0) + sep + p.1;
      forall i | 0 <= i < |p.0| + 1 ensures !OccursAt(s, sep, i) {
        if i > 0 { OccursLater(s, sep, i - 1); } else { assert s[0..|sep|] == s[..|sep|]; }
      }
    }
  }

  lemma {:induction false} CutTextAt(s: string, sep: string, a: string, b: string)
    requires sep != "" && CutsInto(s, sep, a, b)
    ensures CutText(s, sep) == Some((a, b))
  {
    assert s[0..|sep|] == s[..|sep|];
    if a == "" {
      assert s == sep + b && s[..|sep|] == sep && s[|sep|..] == b;
    } else {
      assert !OccursAt(s, sep, 0);
      assert s[1..] == a[1..] + sep + b;
      forall i | 0 <= i < |a[1..]| ensures !OccursAt(s[1..], sep, i) { OccursLater(s, sep, i); }
      CutTextAt(s[1..], sep, a[1..], b);
      assert a == [a[0]] + a[1..];
    }
  }

  // The servers in a text with slashes, none of them empty.
  ghost predicate IsServers(via: seq<string>, text: string) {
    exists pieces :: Listed(pieces, '/', text) && AllTrimmed(pieces, via)
  }

  predicate Listed(pieces: seq<string>, c: char, text: string) {
    pieces != [] && (forall k :: 0 <= k < |pieces| ==> Without(pieces[k], c)) && JoinChar(pieces, c) == text
  }

  predicate AllTrimmed(pieces: seq<string>, via: seq<string>) {
    |via| == |pieces| && forall k :: 0 <= k < |via| ==> via[k] == TrimSpace(pieces[k]) && via[k] != ""
  }

  lemma {:induction false} ListedMeaning(pieces: seq<string>, c: char, text: string)
    ensures SplitChar(text, c) == pieces <==> Listed(pieces, c, text)
  {
    JoinSplitChar(text, c);
    if Listed(pieces, c, text) { SplitCharJoin(pieces, c); }
  }

  lemma {:induction false} TrimmedMeaning(pieces: seq<string>, via: seq<string>)
    ensures Servers(pieces) == Ok(via) <==> AllTrimmed(pieces, via)
  {
    if pieces != [] {
      var n := |pieces| - 1;
      if Servers(pieces) == Ok(via) {
        var init := Servers(pieces[..n]).value;
        TrimmedMeaning(pieces[..n], init);
        TrimmedSnoc(pieces, init);
      }
      if AllTrimmed(pieces, via) {
        TrimmedInit(pieces, via);
        TrimmedMeaning(pieces[..n], via[..n]);
      }
    }
  }

  lemma {:induction false} TrimmedSnoc(pieces: seq<string>, init: seq<string>)
    requires pieces != [] && AllTrimmed(pieces[..|pieces| - 1], init) && TrimSpace(pieces[|pieces| - 1]) != ""
    ensures AllTrimmed(pieces, init + [TrimSpace(pieces[|pieces| - 1])])
  {
    assert forall k :: 0 <= k < |init| ==> pieces[..|pieces| - 1][k] == pieces[k];
  }

  lemma {:induction false} TrimmedInit(pieces: seq<string>, via: seq<string>)
    requires pieces != [] && AllTrimmed(pieces, via)
    ensures var n := |pieces| - 1; AllTrimmed(pieces[..n], via[..n]) && via == via[..n] + [via[n]]
  {}

  // One recipient: the address with a domain, in normal form.
  ghost predicate IsRecipient(norm: Norm, domain: string, addr: string, via: seq<string>, kind: Kind,
      rs: seq<Recipient>)
  {
    var full := if Without(addr, '@') then addr + "@" + domain else addr;
    exists n :: norm(full) == Some(n) && rs == [Recipient(n, via, kind)]
  }

  // One part of a right side: nothing, an address, or an address and the servers to send it to.
  ghost predicate PartSays(norm: Norm, domain: string, part: string, rs: seq<Recipient>) {
    var a := TrimSpace(part);
    || (a == "" && rs == [])
    || (a != "" && NoForward(a) && IsRecipient(norm, domain, a, [], EMAIL, rs))
    || exists x, y, via :: ForwardSays(a, x, y, via) && IsRecipient(norm, domain, TrimSpace(x), via, FORWARD, rs)
  }

  predicate NoForward(a: string) { forall i :: 0 <= i < |a| ==> !OccursAt(a, " via ", i) }

  ghost predicate ForwardSays(a: string, x: string, y: string, via: seq<string>) {
    CutsInto(a, " via ", x, y) && TrimSpace(x) != "" && IsServers(via, y)
  }

  lemma {:induction false} ForwardMeaning(a: string, addr: string, via: seq<string>)
    ensures Forward(a) == Ok((addr, via)) <==> exists x, y :: ForwardSays(a, x, y, via) && addr == TrimSpace(x)
  {
    if Forward(a) == Ok((addr, via)) {
      CutTextSome(a, VIA);
      var p := CutText(a, VIA).value;
      ListedMeaning(SplitChar(p.1, '/'), '/', p.1);
      TrimmedMeaning(SplitChar(p.1, '/'), via);
      assert ForwardSays(a, p.0, p.1, via);
    }
    if x, y :| ForwardSays(a, x, y, via) && addr == TrimSpace(x) {
      CutTextAt(a, VIA, x, y);
      var pieces :| Listed(pieces, '/', y) && AllTrimmed(pieces, via);
      ListedMeaning(pieces, '/', y);
      TrimmedMeaning(pieces, via);
    }
  }

  lemma {:induction false} NoViaMeaning(a: string)
    ensures CutText(a, VIA).None? <==> NoForward(a)
  {
    if CutText(a, VIA).Some? {
      CutTextSome(a, VIA);
      var x, y := CutText(a, VIA).value.0, CutText(a, VIA).value.1;
      assert a[|x|..|x| + |VIA|] == VIA;
      assert OccursAt(a, VIA, |x|);
    } else {
      forall i | 0 <= i < |a| ensures !OccursAt(a, VIA, i) {
        if OccursAt(a, VIA, i) { FirstOccurrence(a, VIA, i); }
      }
    }
  }

  lemma {:induction false} FirstOccurrence(s: string, sep: string, i: nat)
    requires sep != "" && OccursAt(s, sep, i)
    ensures CutText(s, sep).Some?
  {
    if s[..|sep|] != sep {
      assert i > 0 by { assert s[0..|sep|] == s[..|sep|]; }
      OccursLater(s, sep, i - 1);
      FirstOccurrence(s[1..], sep, i - 1);
    }
  }

  lemma {:induction false} NormalMeaning(norm: Norm, domain: string, addr: string, via: seq<string>, kind: Kind,
      rs: seq<Recipient>)
    ensures Normal(norm, WithDomain(addr, domain), via, kind) == Ok(rs) <==>
            IsRecipient(norm, domain, addr, via, kind, rs)
  {}

  lemma {:induction false} PartMeaning(norm: Norm, domain: string, part: string, rs: seq<Recipient>)
    ensures OneRight(norm, domain, part) == Ok(rs) <==> PartSays(norm, domain, part, rs)
  {
    var a := TrimSpace(part);
    NoViaMeaning(a);
    NormalMeaning(norm, domain, a, [], EMAIL, rs);
    if Forward(a).Ok? {
      var f := Forward(a).value;
      ForwardMeaning(a, f.0, f.1);
      NormalMeaning(norm, domain, f.0, f.1, FORWARD, rs);
    }
    if x, y, via :| ForwardSays(a, x, y, via) && IsRecipient(norm, domain, TrimSpace(x), via, FORWARD, rs) {
      ForwardMeaning(a, TrimSpace(x), via);
      CutTextAt(a, VIA, x, y);
      NormalMeaning(norm, domain, TrimSpace(x), via, FORWARD, rs);
    }
  }

  function Concat(rss: seq<seq<Recipient>>): seq<Recipient> {
    if rss == [] then [] else Concat(rss[..|rss| - 1]) + rss[|rss| - 1]
  }

  ghost predicate PartsSay(norm: Norm, domain: string, parts: seq<string>, rss: seq<seq<Recipient>>) {
    |rss| == |parts| && forall k :: 0 <= k < |parts| ==> PartSays(norm, domain, parts[k], rss[k])
  }

  // A right side: nothing, a command after "|", or recipients between commas.
  ghost predicate RightSays(norm: Norm, domain: string, raw: string, rs: seq<Recipient>) {
    || (raw == "" && rs == [])
    || (raw != "" && raw[0] == '|' && TrimSpace(raw[1..]) != "" && rs == [Recipient(TrimSpace(raw[1..]), [], PIPE)])
    || (raw != "" && raw[0] != '|' && ListSays(norm, domain, raw, rs))
  }

  ghost predicate ListSays(norm: Norm, domain: string, raw: string, rs: seq<Recipient>) {
    exists parts, rss :: Listed(parts, ',', raw) && PartsSay(norm, domain, parts, rss) && rs == Concat(rss)
  }

  lemma {:induction false} AllSaid(norm: Norm, domain: string, parts: seq<string>) returns (rss: seq<seq<Recipient>>)
    requires AllRight(norm, domain, parts).Ok?
    ensures PartsSay(norm, domain, parts, rss) && AllRight(norm, domain, parts).value == Concat(rss)
  {
    if parts == [] {
      rss := [];
    } else {
      var n := |parts| - 1;
      var init := AllSaid(norm, domain, parts[..n]);
      var one := OneRight(norm, domain, parts[n]).value;
      PartMeaning(norm, domain, parts[n], one);
      rss := init + [one];
      assert rss[..n] == init;
      forall k | 0 <= k < |parts| ensures PartSays(norm, domain, parts[k], rss[k]) {
        if k < n { assert parts[..n][k] == parts[k] && rss[k] == init[k]; }
      }
    }
  }

  lemma {:induction false} SaidAll(norm: Norm, domain: string, parts: seq<string>, rss: seq<seq<Recipient>>)
    requires PartsSay(norm, domain, parts, rss)
    ensures AllRight(norm, domain, parts) == Ok(Concat(rss))
  {
    if parts != [] {
      var n := |parts| - 1;
      forall k | 0 <= k < n ensures PartSays(norm, domain, parts[..n][k], rss[..n][k]) {
        assert PartSays(norm, domain, parts[k], rss[k]);
      }
      SaidAll(norm, domain, parts[..n], rss[..n]);
      PartMeaning(norm, domain, parts[n], rss[n]);
    }
  }

  // parseRHS accepts exactly these right sides, and reads them so.
  lemma {:induction false} RightMeaning(norm: Norm, domain: string, raw: string, rs: seq<Recipient>)
    ensures Right(norm, domain, raw) == Ok(rs) <==> RightSays(norm, domain, raw, rs)
  {
    if raw != "" && raw[0] != '|' {
      var parts := SplitChar(raw, ',');
      ListedMeaning(parts, ',', raw);
      if AllRight(norm, domain, parts) == Ok(rs) {
        var rss := AllSaid(norm, domain, parts);
      }
      if ps, rss :| Listed(ps, ',', raw) && PartsSay(norm, domain, ps, rss) && rs == Concat(rss) {
        ListedMeaning(ps, ',', raw);
        SaidAll(norm, domain, ps, rss);
      }
    }
  }
}
