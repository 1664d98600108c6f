/** internal/aliases/aliases.go, parseRHS and parseForward: the right side of an alias. */
module AliasRight {
  import opened Text
  import opened AliasResolve

  datatype RightError = MissingCommand | MissingAddress | EmptyServer | BadAddress

  // normalize.Addr
  type Norm = string -> Option<string>

  const VIA := " via "

  // strings.Cut at a separator.
  function CutText(s: string, sep: string): Option<(string, string)> {
    if |s| < |sep| then None
    else if s[..|sep|] == sep then Some(("", s[|sep|..]))
    else if s == "" then None
    else match CutText(s[1..], sep)
      case None => None
      case Some(p) => Some(([s[0]] + p.0, p.1))
  }

  // ---------------------------------------------------------------- servers of a forward

  function Servers(pieces: seq<string>): Result<seq<string>, RightError> {
    if pieces == [] then Ok([])
    else
      var n := |pieces| - 1;
      match Servers(pieces[..n])
      case Err(e) => Err(e)
      case Ok(via) => if TrimSpace(pieces[n]) == "" then Err(EmptyServer) else Ok(via + [TrimSpace(pieces[n])])
  }

  function Forward(raw: string): Result<(string, seq<string>), RightError> {
    match CutText(raw, VIA)
    case None => Err(MissingAddress)
    case Some(p) =>
      if TrimSpace(p.0) == "" then Err(MissingAddress)
      else match Servers(SplitChar(p.1, '/'))
        case Err(e) => Err(e)
        case Ok(via) => Ok((TrimSpace(p.0), via))
  }

  lemma {:induction false} ServersErr(pieces: seq<string>, i: nat)
    requires i <= |pieces| && Servers(pieces[..i]).Err?
    ensures Servers(pieces) == Servers(pieces[..i])
  {
    if i < |pieces| {
      assert pieces[..|pieces| - 1][..i] == pieces[..i];
      ServersErr(pieces[..|pieces| - 1], i);
    } else {
      assert pieces[..i] == pieces;
    }
  }

  // parseForward
  method ParseForward(raw: string) returns (r: Result<(string, seq<string>), RightError>)
    ensures r == Forward(raw)
  {
    var p := CutText(raw, VIA);
    if p.None? {
      return Err(MissingAddress);
    }
    var addr := TrimSpace(p.value.0);
    if addr == "" {
      return Err(MissingAddress);
    }
    var pieces := SplitChar(p.value.1, '/');
    var via: seq<string> := [];
    for i := 0 to |pieces|
      invariant Servers(pieces[..i]) == Ok(via)
    {
      assert pieces[..i + 1][..i] == pieces[..i];
      var server := TrimSpace(pieces[i]);
      if server == "" {
        ServersErr(pieces, i + 1);
        return Err(EmptyServer);
      }
      via := via + [server];
    }
    assert pieces[..|pieces|] == pieces;
    return Ok((addr, via));
  }

  // ---------------------------------------------------------------- recipients

  function WithDomain(addr: string, domain: string): string { if '@' in addr then addr else addr + "@" + domain }

  // One part of the list; nothing if it is empty.
  function OneRight(norm: Norm, domain: string, part: string): Result<seq<Recipient>, RightError> {
    var a := TrimSpace(part);
    if a == "" then Ok([])
    else if CutText(a, VIA).Some? then
      match Forward(a)
      case Err(e) => Err(e)
      case Ok(f) => Normal(norm, WithDomain(f.0, domain), f.1, FORWARD)
    else Normal(norm, WithDomain(a, domain), [], EMAIL)
  }

  function Normal(norm: Norm, addr: string, via: seq<string>, kind: Kind): Result<seq<Recipient>, RightError> {
    match norm(addr)
    case None => Err(BadAddress)
    case Some(n) => Ok([Recipient(n, via, kind)])
  }

  function AllRight(norm: Norm, domain: string, parts: seq<string>): Result<seq<Recipient>, RightError> {
    if parts == [] then Ok([])
    else
      var n := |parts| - 1;
      match AllRight(norm, domain, parts[..n])
      case Err(e) => Err(e)
      case Ok(rs) =>
        match OneRight(norm, domain, parts[n])
        case Err(e) => Err(e)
        case Ok(one) => Ok(rs + one)
  }

  function Right(norm: Norm, domain: string, raw: string): Result<seq<Recipient>, RightError> {
    if raw == "" then Ok([])
    else if raw[0] == '|' then
      (if TrimSpace(raw[1..]) == "" then Err(MissingCommand) else Ok([Recipient(TrimSpace(raw[1..]), [], PIPE)]))
    else AllRight(norm, domain, SplitChar(raw, ','))
  }

  lemma {:induction false} AllRightErr(norm: Norm, domain: string, parts: seq<string>, i: nat)
    requires i <= |parts| && AllRight(norm, domain, parts[..i]).Err?
    ensures AllRight(norm, domain, parts) == AllRight(norm, domain, parts[..i])
  {
    if i < |parts| {
      assert parts[..|parts| - 1][..i] == parts[..i];
      AllRightErr(norm, domain, parts[..|parts| - 1], i);
    } else {
      assert parts[..i] == parts;
    }
  }

  lemma {:induction false} AllRightStep(norm: Norm, domain: string, parts: seq<string>, i: nat, rs: seq<Recipient>)
    requires i < |parts| && AllRight(norm, domain, parts[..i]) == Ok(rs)
    ensures var one := OneRight(norm, domain, parts[i]);
      && (one.Ok? ==> AllRight(norm, domain, parts[..i + 1]) == Ok(rs + one.value))
      && (one.Err? ==> AllRight(norm, domain, parts) == Err(one.error))
  {
    assert parts[..i + 1][..i] == parts[..i];
    if OneRight(norm, domain, parts[i]).Err? { AllRightErr(norm, domain, parts, i + 1); }
  }

  // parseRHS
  method ParseRHS(norm: Norm, domain: string, raw: string) returns (r: Result<seq<Recipient>, RightError>)
    ensures r == Right(norm, domain, raw)
  {
    if raw == "" {
      return Ok([]);
    }
    if raw[0] == '|' {
      var cmd := TrimSpace(raw[1..]);
      if cmd == "" {
        return Err(MissingCommand);
      }
      return Ok([Recipient(cmd, [], PIPE)]);
    }
    var rs: seq<Recipient> := [];
    var parts := SplitChar(raw, ',');
    for i := 0 to |parts|
      invariant AllRight(norm, domain, parts[..i]) == Ok(rs)
    {
      AllRightStep(norm, domain, parts, i, rs);
      var a := TrimSpace(parts[i]);
      if a == "" {
        assert rs + [] == rs;
        continue;
      }
      var addr, via, kind := a, [], EMAIL;
      if CutText(a, VIA).Some? {
        var f := ParseForward(a);
        if f.Err? {
          return Err(f.error);
        }
        addr, via, kind := f.value.0, f.value.1, FORWARD;
      }
      if '@' !in addr {
        addr := addr + "@" + domain;
      }
      var normal := norm(addr);
      if normal.None? {
        return Err(BadAddress);
      }
      rs := rs + [Recipient(normal.value, via, kind)];
    }
    assert parts[..|parts|] == parts;
    return Ok(rs);
  }

  // ---------------------------------------------------------------- printing and reading

  // A word without white space, commas or slashes.
  predicate Word(s: string) { s != "" && forall i :: 0 <= i < |s| ==> !IsSpace(s[i]) && s[i] != ',' && s[i] != '/' }

  // A recipient that can be written down.
  predicate Writable(norm: Norm, r: Recipient) {
    && Word(r.addr) && '@' in r.addr && norm(r.addr) == Some(r.addr)
    && (match r.kind
        case EMAIL => r.via == []
        case FORWARD => r.via != [] && forall i :: 0 <= i < |r.via| ==> Word(r.via[i])
        case PIPE => false)
  }

  function Print(r: Recipient): string { if r.kind == FORWARD then r.addr + VIA + JoinChar(r.via, '/') else r.addr }

  function PrintAll(rs: seq<Recipient>): (ps: seq<string>)
    ensures |ps| == |rs| && forall i :: 0 <= i < |rs| ==> ps[i] == Print(rs[i])
  {
    seq(|rs|, i requires 0 <= i < |rs| => Print(rs[i]))
  }

  lemma {:induction false} NoVia(s: string)
    requires Without(s, ' ')
    ensures CutText(s, VIA) == None
  {
    if |s| >= 5 {
      assert s[..5][0] == s[0] && VIA[0] == ' ';
      NoVia(s[1..]);
    }
  }

  lemma {:induction false} CutVia(a: string, b: string)
    requires Without(a, ' ')
    ensures CutText(a + VIA + b, VIA) == Some((a, b))
  {
    var s := a + VIA + b;
    if a == "" {
      assert s[..5] == VIA && s[5..] == b;
    } else {
      assert s[..5][0] == a[0] && VIA[0] == ' ';
      assert s[1..] == a[1..] + VIA + b;
      CutVia(a[1..], b);
      assert [a[0]] + a[1..] == a;
    }
  }

  lemma {:induction false} WordTrimmed(s: string)
    requires Word(s)
    ensures TrimSpace(s) == s && Without(s, ' ') && Without(s, ',') && Without(s, '/')
  {}

  lemma {:induction false} ServersOfWords(ws: seq<string>)
    requires forall i :: 0 <= i < |ws| ==> Word(ws[i])
    ensures Servers(ws) == Ok(ws)
  {
    if ws != [] {
      var n := |ws| - 1;
      ServersOfWords(ws[..n]);
      WordTrimmed(ws[n]);
      assert ws == ws[..n] + [ws[n]];
    }
  }

  // The text of a recipient has no comma, and starts and ends with a visible character.
  lemma {:induction false} Printed(norm: Norm, r: Recipient)
    requires Writable(norm, r)
    ensures Print(r) != "" && Print(r)[0] == r.addr[0] && Without(Print(r), ',') && TrimSpace(Print(r)) == Print(r)
  {
    WordTrimmed(r.addr);
    if r.kind == FORWARD {
      var j := JoinChar(r.via, '/');
      JoinedWords(r.via);
      var p := Print(r);
      assert p[|p| - 1] == j[|j| - 1];
      assert forall i :: 0 <= i < |p| ==> p[i] in r.addr || p[i] in VIA || p[i] in j;
    }
  }

  lemma {:induction false} JoinedWords(ws: seq<string>)
    requires ws != [] && forall i :: 0 <= i < |ws| ==> Word(ws[i])
    ensures var j := JoinChar(ws, '/'); j != "" && !IsSpace(j[|j| - 1]) && Without(j, ',')
  {
    if |ws| == 1 {
      WordTrimmed(ws[0]);
    } else {
      JoinedWords(ws[1..]);
      WordTrimmed(ws[0]);
    }
  }

  lemma {:induction false} OneReadsBack(norm: Norm, domain: string, r: Recipient)
    requires Writable(norm, r)
    ensures OneRight(norm, domain, Print(r)) == Ok([r])
  {
    Printed(norm, r);
    WordTrimmed(r.addr);
    if r.kind == FORWARD {
      var j := JoinChar(r.via, '/');
      CutVia(r.addr, j);
      forall i | 0 <= i < |r.via| ensures Without(r.via[i], '/') { WordTrimmed(r.via[i]); }
      SplitCharJoin(r.via, '/');
      ServersOfWords(r.via);
    } else {
      NoVia(r.addr);
    }
  }

  lemma {:induction false} AllReadBack(norm: Norm, domain: string, rs: seq<Recipient>)
    requires forall i :: 0 <= i < |rs| ==> Writable(norm, rs[i])
    ensures AllRight(norm, domain, PrintAll(rs)) == Ok(rs)
  {
    if rs != [] {
      var n := |rs| - 1;
      AllReadBack(norm, domain, rs[..n]);
      assert PrintAll(rs)[..n] == PrintAll(rs[..n]);
      OneReadsBack(norm, domain, rs[n]);
      assert rs == rs[..n] + [rs[n]];
    }
  }

  // A list of recipients written down with commas reads back as itself, unless its first character marks a command.
  lemma {:induction false} RightReadsBack(norm: Norm, domain: string, rs: seq<Recipient>)
    requires rs != [] && rs[0].addr != "" && rs[0].addr[0] != '|'
    requires forall i :: 0 <= i < |rs| ==> Writable(norm, rs[i])
    ensures Right(norm, domain, JoinChar(PrintAll(rs), ',')) == Ok(rs)
  {
    var ps := PrintAll(rs);
    forall i | 0 <= i < |ps| ensures Without(ps[i], ',') { Printed(norm, rs[i]); }
    Printed(norm, rs[0]);
    SplitCharJoin(ps, ',');
    JoinStart(ps, ',');
    AllReadBack(norm, domain, rs);
  }

  lemma {:induction false} JoinStart(ps: seq<string>, c: char)
    requires ps != [] && ps[0] != ""
    ensures JoinChar(ps, c) != "" && JoinChar(ps, c)[0] == ps[0][0]
  {}

  // Every recipient that is not a command has the normalised form of an address with a domain, and so has a domain
  // itself if normalising keeps the "@".
  lemma {:induction false} RightHasDomains(norm: Norm, domain: string, raw: string, k: nat)
    requires Right(norm, domain, raw).Ok? && k < |Right(norm, domain, raw).value|
    ensures var r := Right(norm, domain, raw).value[k];
      r.kind != PIPE ==> (exists a :: '@' in a && norm(a) == Some(r.addr)) && (KeepsAt(norm) ==> '@' in r.addr)
  {
    if raw != "" && raw[0] != '|' { AllHaveDomains(norm, domain, SplitChar(raw, ','), k); }
  }

  ghost predicate KeepsAt(norm: Norm) {
    forall a :: '@' in a && norm(a).Some? ==> '@' in norm(a).value
  }

  lemma {:induction false} AllHaveDomains(norm: Norm, domain: string, parts: seq<string>, k: nat)
    requires AllRight(norm, domain, parts).Ok? && k < |AllRight(norm, domain, parts).value|
    ensures exists a :: '@' in a && norm(a) == Some(AllRight(norm, domain, parts).value[k].addr)
  {
    var n := |parts| - 1;
    var init := AllRight(norm, domain, parts[..n]).value;
    if k < |init| {
      AllHaveDomains(norm, domain, parts[..n], k);
    } else {
      var a := TrimSpace(parts[n]);
      var full := WithDomain(if CutText(a, VIA).Some? then Forward(a).value.0 else a, domain);
      assert '@' in full;
    }
  }
}
