/** internal/dkim/sign.go: building the value of a DKIM-Signature field. */
module Signing {
  import opened Text
  import opened Base64
  import opened Message
  import opened Canonical
  import opened Tags

  const HeadersToSign: seq<string> := [
    "From", "Reply-To", "Subject", "Date", "To", "Cc",
    "Resent-Date", "Resent-From", "Resent-To", "Resent-Cc",
    "In-Reply-To", "References",
    "List-Id", "List-Help", "List-Unsubscribe", "List-Subscribe", "List-Post", "List-Owner", "List-Archive",
    "Message-ID"]

  const ExtraHeaders: seq<string> := ["From", "Subject", "Date", "To", "Cc", "Message-ID"]

  // The hash and the private key are parameters; a key may fail to sign.
  type Hash = string -> seq<Octet>
  datatype Signer = Signer(domain: string, selector: string, keyType: Option<KeyType>,
                           sign: seq<Octet> -> Option<seq<Octet>>)
  datatype SignError = BadMessage(error: ParseError) | UnsupportedKey | SigningFailed

  // ---------------------------------------------------------------- what is signed

  function Repeat(name: string, n: nat): (r: seq<string>)
    ensures |r| == n && forall i :: 0 <= i < n ==> r[i] == name
  {
    if n == 0 then [] else Repeat(name, n - 1) + [name]
  }

  // Every name as often as it occurs in the message.
  function Occurring(names: seq<string>, hs: seq<Header>): seq<string> {
    if names == [] then []
    else
      var last := names[|names| - 1];
      Occurring(names[..|names| - 1], hs) + Repeat(last, |Named(hs, last)|)
  }

  function HTag(hs: seq<Header>): seq<string> { Occurring(HeadersToSign, hs) + ExtraHeaders }

  // The fields in the order in which Sign hashes them.
  function SignedFields(names: seq<string>, hs: seq<Header>): seq<Header> {
    if names == [] then []
    else SignedFields(names[..|names| - 1], hs) + Named(hs, names[|names| - 1])
  }

  function FieldText(c: Canon, hs: seq<Header>): string {
    if hs == [] then "" else FieldText(c, hs[..|hs| - 1]) + c.Field(hs[|hs| - 1]).source + CRLF
  }

  lemma {:induction false} FieldTextAppend(c: Canon, a: seq<Header>, b: seq<Header>)
    ensures FieldText(c, a + b) == FieldText(c, a) + FieldText(c, b)
  {
    if b == [] {
      assert a + b == a;
    } else {
      var n := |b| - 1;
      assert (a + b)[..|a + b| - 1] == a + b[..n];
      FieldTextAppend(c, a, b[..n]);
      var s := c.Field(b[n]).source;
      Assoc(FieldText(c, a), FieldText(c, b[..n]), s);
      Assoc(FieldText(c, a), FieldText(c, b[..n]) + s, CRLF);
    }
  }

  // ---------------------------------------------------------------- wrapping

  const LIMIT := 70
  const INDENT: string := "\r\n  "

  // The rest of the list of names, the current line being `line`.
  function Wrapped(hs: seq<string>, first: bool, line: string): string {
    if hs == [] then line
    else
      var full := |line| + 1 + |hs[0]| > LIMIT;
      (if full then line + INDENT else "")
      + Wrapped(hs[1..], false, (if full then "" else line) + (if first then "" else ":") + hs[0])
  }

  function FormatNames(hs: seq<string>): string { TrimSpace(ToLower(Wrapped(hs, true, ""))) }

  // formatHeaders
  method FormatHeaders(hs: seq<string>) returns (r: string)
    ensures r == FormatNames(hs)
  {
    var sb, line := "", "";
    for i := 0 to |hs|
      invariant sb + Wrapped(hs[i..], i == 0, line) == Wrapped(hs, true, "")
    {
      var h := hs[i];
      ghost var was, line0 := sb, line;
      if |line| + 1 + |h| > LIMIT {
        sb := sb + (line + INDENT);
        line := "";
      }
      if i > 0 {
        line := line + ":";
      }
      line := line + h;
      assert hs[i..][1..] == hs[i + 1..] && hs[i..][0] == h;
      ghost var full := |line0| + 1 + |h| > LIMIT;
      assert line == (if full then "" else line0) + (if i == 0 then "" else ":") + h;
      ghost var rest := Wrapped(hs[i + 1..], false, line);
      ghost var pre := if full then line0 + INDENT else "";
      assert Wrapped(hs[i..], i == 0, line0) == pre + rest;
      Assoc(was, pre, rest);
      assert sb == was + pre;
    }
    sb := sb + line;
    return TrimSpace(ToLower(sb));
  }

  function Broken(s: string): string {
    if |s| <= LIMIT then s else s[..LIMIT] + INDENT + Broken(s[LIMIT..])
  }

  // breakLongLines
  method BreakLongLines(s: string) returns (r: string)
    ensures r == Broken(s)
  {
    var rest := s;
    r := "";
    while |rest| > 0
      invariant r + Broken(rest) == Broken(s)
      decreases |rest|
    {
      if |rest| > LIMIT {
        Assoc(r, rest[..LIMIT] + INDENT, Broken(rest[LIMIT..]));
        Assoc(r, rest[..LIMIT], INDENT);
        r := r + rest[..LIMIT] + INDENT;
        rest := rest[LIMIT..];
      } else {
        r := r + rest;
        rest := "";
      }
    }
  }

  // strings.ReplaceAll(s, "\r\n", "\r\n\t")
  function Fold(s: string): string {
    if s == "" then ""
    else if StartsCrlf(s) then CRLF + "\t" + Fold(s[2..])
    else [s[0]] + Fold(s[1..])
  }

  // ---------------------------------------------------------------- the value

  function AlgoStr(kt: KeyType): string { if kt == Rsa then "rsa-sha256" else "ed25519-sha256" }

  // Everything up to and including "b=".
  function SigHead(algo: string, d: string, s: string, now: nat, names: seq<string>, bh: seq<Octet>): string {
    ("v=1; a=" + algo + "; c=relaxed/relaxed;" + CRLF)
    + ("d=" + d + "; s=" + s + "; t=" + Decimal(now) + ";" + CRLF)
    + ("h=" + FormatNames(names) + ";" + CRLF)
    + ("bh=" + Encode(bh) + ";" + CRLF)
    + "b="
  }

  const SIG_NAME: string := "DKIM-Signature"

  // The bytes Sign feeds to the second hash.
  function SignedText(head: string, hs: seq<Header>): string {
    var v := Fold(head) + ";";
    FieldText(Relaxed, SignedFields(HeadersToSign, hs)) + RelaxHeader(Header(SIG_NAME, v, v)).source
  }

  function Head(hash: Hash, signer: Signer, now: nat, p: Parsed): string
    requires signer.keyType.Some?
  {
    SigHead(AlgoStr(signer.keyType.value), signer.domain, signer.selector, now, HTag(p.headers),
            hash(RelaxBody(p.body)))
  }

  function SignedValue(hash: Hash, signer: Signer, now: nat, message: string): Result<string, SignError> {
    match Parse(message)
    case Err(e) => Err(BadMessage(e))
    case Ok(p) =>
      if signer.keyType.None? then Err(UnsupportedKey)
      else
        var head := Head(hash, signer, now, p);
        match signer.sign(hash(SignedText(head, p.headers)))
        case None => Err(SigningFailed)
        case Some(sig) => Ok(head + Broken(Encode(sig)) + ";")
  }

  // Signer.Sign
  method Sign(hash: Hash, signer: Signer, now: nat, message: string) returns (r: Result<string, SignError>)
    ensures r == SignedValue(hash, signer, now, message)
  {
    var parsed := ParseMessage(message);
    if parsed.Err? {
      return Err(BadMessage(parsed.error));
    }
    var headers, body := parsed.value.headers, parsed.value.body;
    if signer.keyType.None? {
      return Err(UnsupportedKey);
    }
    var dkimSignature := "v=1; a=" + AlgoStr(signer.keyType.value) + "; c=relaxed/relaxed;" + CRLF;
    dkimSignature := dkimSignature
      + ("d=" + signer.domain + "; s=" + signer.selector + "; t=" + Decimal(now) + ";" + CRLF);

    var hsForHeader := CountedNames(HeadersToSign, headers);
    hsForHeader := hsForHeader + ExtraHeaders;
    var formatted := FormatHeaders(hsForHeader);
    dkimSignature := dkimSignature + ("h=" + formatted + ";" + CRLF);
    dkimSignature := dkimSignature + ("bh=" + Encode(hash(RelaxBody(body))) + ";" + CRLF);

    var hashed := HashedFields(HeadersToSign, headers);
    dkimSignature := dkimSignature + "b=";
    var forSigning := Fold(dkimSignature) + ";";
    hashed := hashed + RelaxHeader(Header(SIG_NAME, forSigning, forSigning)).source;
    var sig := signer.sign(hash(hashed));
    if sig.None? {
      return Err(SigningFailed);
    }
    var broken := BreakLongLines(Encode(sig.value));
    return Ok(dkimSignature + broken + ";");
  }

  // The loop that appends every name as often as it appears.
  method CountedNames(names: seq<string>, headers: seq<Header>) returns (hs: seq<string>)
    ensures hs == Occurring(names, headers)
  {
    hs := [];
    for k := 0 to |names|
      invariant hs == Occurring(names[..k], headers)
    {
      var h := names[k];
      var all := FindAll(headers, h);
      ghost var before := hs;
      for i := 0 to |all|
        invariant hs == before + Repeat(h, i)
      {
        hs := hs + [h];
      }
      assert names[..k + 1][..k] == names[..k];
    }
    assert names[..|names|] == names;
  }

  // Write canonicalised fields to a hash.
  method WriteFields(c: Canon, fields: seq<Header>) returns (b: string)
    ensures b == FieldText(c, fields)
  {
    b := "";
    for i := 0 to |fields|
      invariant b == FieldText(c, fields[..i])
    {
      assert fields[..i + 1][..i] == fields[..i];
      b := b + c.Field(fields[i]).source + CRLF;
    }
    assert fields[..|fields|] == fields;
  }

  // The loop over the names of the fields to hash.
  method HashedFields(names: seq<string>, headers: seq<Header>) returns (b: string)
    ensures b == FieldText(Relaxed, SignedFields(names, headers))
  {
    b := "";
    for k := 0 to |names|
      invariant b == FieldText(Relaxed, SignedFields(names[..k], headers))
    {
      var all := FindAll(headers, names[k]);
      var text := WriteFields(Relaxed, all);
      assert names[..k + 1][..k] == names[..k];
      FieldTextAppend(Relaxed, SignedFields(names[..k], headers), all);
      b := b + text;
    }
    assert names[..|names|] == names;
  }
}
