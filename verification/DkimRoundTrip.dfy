/** Sign, prepend, parse, verify: when a signature written by Sign is accepted. */
module DkimRoundTrip {
  import opened Text
  import opened Base64
  import opened Message
  import opened Canonical
  import opened CanonicalBody
  import opened Tags
  import opened Signing
  import opened Selection
  import opened Verifying
  import opened SigText
  import opened SigReading
  import opened SigCanonical
  import opened SignedSelection

  // The message with the signature in front, continuation lines indented.
  function Prepended(value: string, message: string): string {
    SIG_NAME + ":" + (" " + Fold(value)) + CRLF + message
  }

  // ---------------------------------------------------------------- canonical lines

  function RelaxedLines(hs: seq<Header>): (r: seq<string>)
    ensures |r| == |hs| && forall i :: 0 <= i < |hs| ==> r[i] == RelaxHeader(hs[i]).source
  {
    seq(|hs|, i requires 0 <= i < |hs| => RelaxHeader(hs[i]).source)
  }

  lemma {:induction false} FieldTextIs(hs: seq<Header>)
    ensures FieldText(Relaxed, hs) == Terminated(RelaxedLines(hs))
  {
    if hs != [] {
      var n := |hs| - 1;
      FieldTextIs(hs[..n]);
      assert RelaxedLines(hs)[..n] == RelaxedLines(hs[..n]);
    }
  }

  lemma {:induction false} TerminatedInjective(a: seq<string>, b: seq<string>)
    requires Lines(a) && Lines(b) && Terminated(a) == Terminated(b)
    ensures a == b
  {
    if a == [] || b == [] {
      if b != [] { StripTerminated(b); } else if a != [] { StripTerminated(a); }
    } else {
      SplitTerminated(a);
      SplitTerminated(b);
      assert a == (a + [""])[..|a + [""]| - 1] && b == (b + [""])[..|b + [""]| - 1];
    }
  }

  predicate AllWellFolded(hs: seq<Header>) { forall i :: 0 <= i < |hs| ==> WellFolded(hs[i]) }

  lemma {:induction false} RelaxedAreLines(hs: seq<Header>)
    requires AllWellFolded(hs)
    ensures Lines(RelaxedLines(hs))
  {
    forall k | 0 <= k < |hs| ensures NoCrlf(RelaxedLines(hs)[k]) { RelaxedFieldFixed(hs[k]); }
  }

  // The hashed text determines the canonical fields.
  lemma {:induction false} FieldTextInjective(a: seq<Header>, b: seq<Header>)
    requires AllWellFolded(a) && AllWellFolded(b)
    ensures FieldText(Relaxed, a) == FieldText(Relaxed, b) <==> RelaxedLines(a) == RelaxedLines(b)
  {
    FieldTextIs(a);
    FieldTextIs(b);
    RelaxedAreLines(a);
    RelaxedAreLines(b);
    if FieldText(Relaxed, a) == FieldText(Relaxed, b) { TerminatedInjective(RelaxedLines(a), RelaxedLines(b)); }
  }

  // ---------------------------------------------------------------- groups that read the same backwards

  predicate Mirrored(hs: seq<Header>, name: string) {
    RelaxedLines(Named(hs, name)) == Rev(RelaxedLines(Named(hs, name)))
  }

  // The canonical instances of every signed name read the same in both directions.
  predicate Symmetric(names: seq<string>, hs: seq<Header>) {
    names == [] || (Symmetric(names[..|names| - 1], hs) && Mirrored(hs, names[|names| - 1]))
  }

  lemma {:induction false} RelaxedAppend(a: seq<Header>, b: seq<Header>)
    ensures RelaxedLines(a + b) == RelaxedLines(a) + RelaxedLines(b)
  {}

  lemma {:induction false} RelaxedRev(a: seq<Header>)
    ensures RelaxedLines(Rev(a)) == Rev(RelaxedLines(a))
  {}

  lemma {:induction false} SplitEqual<T>(a: seq<T>, b: seq<T>, a': seq<T>, b': seq<T>)
    requires |a| == |a'|
    ensures a + b == a' + b' <==> a == a' && b == b'
  {
    if a + b == a' + b' {
      assert a == (a + b)[..|a|] && a' == (a' + b')[..|a|];
      assert b == (a + b)[|a|..] && b' == (a' + b')[|a|..];
    }
  }

  lemma {:induction false} SameGroups(names: seq<string>, hs: seq<Header>)
    ensures |SignedFields(names, hs)| == |ReversedFields(names, hs)|
    ensures RelaxedLines(SignedFields(names, hs)) == RelaxedLines(ReversedFields(names, hs)) <==> Symmetric(names, hs)
  {
    if names != [] {
      var n := |names| - 1;
      var g := Named(hs, names[n]);
      SameGroups(names[..n], hs);
      var a, b := SignedFields(names[..n], hs), ReversedFields(names[..n], hs);
      RelaxedAppend(a, g);
      RelaxedAppend(b, Rev(g));
      RelaxedRev(g);
      SplitEqual(RelaxedLines(a), RelaxedLines(g), RelaxedLines(b), Rev(RelaxedLines(g)));
    }
  }

  // A message in which no signed name repeats.
  predicate NoRepeats(hs: seq<Header>) {
    forall i :: 0 <= i < |HeadersToSign| ==> |Named(hs, HeadersToSign[i])| <= 1
  }

  lemma {:induction false} ShortMirrored(hs: seq<Header>, name: string)
    requires |Named(hs, name)| <= 1
    ensures Mirrored(hs, name)
  {
    RevShort(RelaxedLines(Named(hs, name)));
  }

  lemma {:induction false} RevShort<T>(s: seq<T>)
    requires |s| <= 1
    ensures s == Rev(s)
  {}

  lemma {:induction false} NoRepeatsSymmetric(names: seq<string>, hs: seq<Header>)
    requires NoRepeats(hs) && names <= HeadersToSign
    ensures Symmetric(names, hs)
  {
    if names != [] {
      var n := |names| - 1;
      NoRepeatsSymmetric(names[..n], hs);
      assert names[n] == HeadersToSign[n];
      ShortMirrored(hs, names[n]);
    }
  }

  lemma {:induction false} FieldsOf(names: seq<string>, hs: seq<Header>)
    requires AllWellFolded(hs)
    ensures AllWellFolded(SignedFields(names, hs)) && AllWellFolded(ReversedFields(names, hs))
  {
    if names != [] {
      var n := |names| - 1;
      FieldsOf(names[..n], hs);
      var g := Named(hs, names[n]);
      NamedMembers(hs, names[n]);
      forall i | 0 <= i < |g| ensures WellFolded(g[i]) { assert g[i] in hs; }
    }
  }

  // ---------------------------------------------------------------- the header hash

  lemma {:induction false} HTagPlain(hs: seq<Header>)
    ensures PlainNames(HTag(hs)) && HTag(hs) != [] && MentionsFrom(HTag(hs))
  {
    OccurringPlain(HeadersToSign, hs);
    var o := Occurring(HeadersToSign, hs);
    forall i | 0 <= i < |ExtraHeaders| ensures PlainName(ExtraHeaders[i]) {
      ExtraIsSigned(i);
      forall k | 0 <= k < |HeadersToSign| ensures PlainName(HeadersToSign[k]) { PlainSignName(k); }
    }
    forall i | 0 <= i < |HTag(hs)| ensures PlainName(HTag(hs)[i]) {
      if i >= |o| { assert HTag(hs)[i] == ExtraHeaders[i - |o|]; }
    }
    assert HTag(hs)[|o|] == "From";
    assert EqualFold("From", "from") by { assert ToLower("From") == "from" == ToLower("from"); }
  }

  lemma {:induction false} OccurringPlain(names: seq<string>, hs: seq<Header>)
    requires names <= HeadersToSign
    ensures PlainNames(Occurring(names, hs))
  {
    if names != [] {
      var n := |names| - 1;
      OccurringPlain(names[..n], hs);
      PlainSignName(n);
      assert names[n] == HeadersToSign[n];
    }
  }

  // Both sides hash the same header text exactly when every group of repeated signed fields is symmetric.
  lemma {:induction false} HeaderTextAgrees(kt: KeyType, d: string, s: string, now: nat, hs: seq<Header>,
      bh: seq<Octet>, sig: seq<Octet>,
                         sigH: Header)
    requires AllWellFolded(hs) && Printable(kt, d, s, HTag(hs), sig)
    requires var head := SigHead(AlgoStr(kt), d, s, now, HTag(hs), bh);
      sigH.name == SIG_NAME && sigH.value == " " + Fold(head + Broken(Encode(sig)) + ";")
    ensures var head := SigHead(AlgoStr(kt), d, s, now, HTag(hs), bh);
      VerifiedText(Written(kt, d, s, HTag(hs), bh, sig), sigH, [sigH] + hs) == SignedText(head, hs)
      <==> Symmetric(HeadersToSign, hs)
  {
    var head := SigHead(AlgoStr(kt), d, s, now, HTag(hs), bh);
    SameSignatureField(kt, d, s, now, HTag(hs), bh, sig, sigH.source);
    SelectedOnSigned(hs, sigH);
    SelectedLower(HTag(hs), hs, sigH);
    FieldsOf(HeadersToSign, hs);
    SameGroups(HeadersToSign, hs);
    var a, b := SignedFields(HeadersToSign, hs), ReversedFields(HeadersToSign, hs);
    FieldTextInjective(a, b);
    var v := Fold(head) + ";";
    var t := RelaxHeader(Header(SIG_NAME, v, v)).source;
    CancelRight(FieldText(Relaxed, a), FieldText(Relaxed, b), t);
  }

  lemma {:induction false} CancelRight(a: string, b: string, t: string)
    ensures a + t == b + t <==> a == b
  {
    if a + t == b + t {
      assert |a| == |b|;
      assert a == (a + t)[..|a|] && b == (b + t)[..|b|];
    }
  }

  // ---------------------------------------------------------------- the body hash

  lemma {:induction false} FirstLineVisible(m: string)
    requires Parse(m).Ok? && !HasEmptyLine(m)
    ensures var lines := SplitCrlf(m); |Remove(JoinCrlf(lines[1..]), IsBlank)| < |Remove(m, IsBlank)|
  {
    var lines := SplitCrlf(m);
    var l := lines[0];
    JoinSplit(m);
    assert FirstEmpty(lines) == |lines| && lines[..|lines|] == lines;
    FirstFieldHasColon(lines);
    RemoveKeeps(l, ':');
    if |lines| > 1 {
      RemoveAppend(l + CRLF, JoinCrlf(lines[1..]), IsBlank);
      RemoveAppend(l, CRLF, IsBlank);
    } else {
      assert lines[1..] == [];
    }
  }

  lemma {:induction false} FirstFieldHasColon(lines: seq<string>)
    requires lines != [] && Fields(lines).Ok?
    ensures !Without(lines[0], ':')
  {
    var n := |lines| - 1;
    if n > 0 {
      FirstFieldHasColon(lines[..n]);
    } else {
      assert lines[..0] == [];
    }
  }

  lemma {:induction false} RemoveKeeps(s: string, c: char)
    requires !Without(s, c) && !IsBlank(c)
    ensures |Remove(s, IsBlank)| > 0
  {
    if s[0] == c {
    } else {
      assert exists i :: 0 < i < |s| && s[i] == c;
      var i :| 0 < i < |s| && s[i] == c;
      assert s[1..][i - 1] == c;
      RemoveKeeps(s[1..], c);
    }
  }

  // Both sides hash the same body exactly when the message has an empty line.
  lemma {:induction false} BodyAgrees(v: string, m: string)
    requires Folded(v) && Parse(m).Ok?
    ensures var r := Parse(SIG_NAME + ":" + v + CRLF + m);
      && r.Ok? && r.value.headers == [Header(SIG_NAME, v, SIG_NAME + ":" + v)] + Parse(m).value.headers
      && (RelaxBody(r.value.body) == RelaxBody(Parse(m).value.body) <==> HasEmptyLine(m))
  {
    assert FieldName(SIG_NAME);
    ParsePrepended(SIG_NAME, v, m);
    if !HasEmptyLine(m) {
      var t := Terminated(SplitCrlf(v)[1..]);
      var body, body' := Parse(m).value.body, t + m;
      FirstLineVisible(m);
      RemoveAppend(t, m, IsBlank);
      RelaxBodyVisible(body);
      RelaxBodyVisible(body');
      var lines := SplitCrlf(m);
      assert FirstEmpty(lines) == |lines|;
    }
  }

  // ---------------------------------------------------------------- the round trip

  // What signing and publishing are assumed to do: signatures are not empty, and one published key of the right
  // type accepts the signatures of the private key.
  ghost predicate Published(hash: Hash, signer: Signer, keys: seq<PublicKey>)
    requires signer.keyType.Some?
  {
    && (forall t :: hash(t) != [])
    && (forall x :: signer.sign(x).Some? ==> signer.sign(x).value != [])
    && exists k :: 0 <= k < |keys| && keys[k].Matches(signer.keyType.value)
         && forall x :: signer.sign(x).Some? ==> keys[k].verify(x, signer.sign(x).value)
  }

  // Ideal cryptography: no collisions, and no key accepts a signature for another digest.
  ghost predicate Ideal(hash: Hash, signer: Signer, keys: seq<PublicKey>) {
    && (forall a, b :: hash(a) == hash(b) ==> a == b)
    && (forall k, x, y :: 0 <= k < |keys| && signer.sign(x).Some? && keys[k].verify(y, signer.sign(x).value) ==> x == y)
  }

  predicate GoodSigner(signer: Signer, now: nat) {
    && signer.keyType.Some? && TagSafe(signer.domain) && TagSafe(signer.selector)
    && now < 0x8000_0000_0000_0000
  }

  // The signature that verification reads from the message.
  function Carried(hash: Hash, signer: Signer, p: Parsed, sig: seq<Octet>): Signature
    requires signer.keyType.Some?
  {
    Written(signer.keyType.value, signer.domain, signer.selector, HTag(p.headers), hash(RelaxBody(p.body)), sig)
  }

  // Sign's output, prepended, is parsed as one more header that reads back as the signature Sign meant; and the two
  // hash inputs agree exactly under the two conditions on the message.
  lemma {:induction false} HashInputsAgree(hash: Hash, signer: Signer, now: nat, message: string, value: string,
      sig: seq<Octet>)
    requires GoodSigner(signer, now) && Parse(message).Ok?
    requires hash(RelaxBody(Parse(message).value.body)) != [] && sig != []
    requires value == Head(hash, signer, now, Parse(message).value) + Broken(Encode(sig)) + ";"
    ensures var p, p' := Parse(message).value, Parse(Prepended(value, message));
      && p'.Ok? && |p'.value.headers| > 0
      && var sigH := p'.value.headers[0];
      && p'.value.headers == [sigH] + p.headers && sigH.name == SIG_NAME
      && ParseSignature(sigH.value) == Ok(Carried(hash, signer, p, sig))
      && (VerifiedBody(Carried(hash, signer, p, sig), p'.value.body) == RelaxBody(p.body) <==> HasEmptyLine(message))
      && (VerifiedText(Carried(hash, signer, p, sig), sigH, p'.value.headers)
            == SignedText(Head(hash, signer, now, p), p.headers)
          <==> Symmetric(HeadersToSign, p.headers))
  {
    var p := Parse(message).value;
    var kt, bh := signer.keyType.value, hash(RelaxBody(p.body));
    var v := " " + Fold(value);
    HTagPlain(p.headers);
    FoldedValue(value);
    BodyAgrees(v, message);
    SignatureReads(kt, signer.domain, signer.selector, now, HTag(p.headers), bh, sig);
    ParsedWellFolded(message);
    assert AllWellFolded(p.headers);
    HeaderTextAgrees(kt, signer.domain, signer.selector, now, p.headers, bh, sig, Header(SIG_NAME, v, SIG_NAME + ":" + v));
  }

  predicate RoundTrips(message: string) {
    Parse(message).Ok? && HasEmptyLine(message) && Symmetric(HeadersToSign, Parse(message).value.headers)
  }

  lemma {:induction false} KeyAccepts(hash: Hash, signer: Signer, keys: seq<PublicKey>, sig: Signature,
      digest: seq<Octet>)
    requires signer.keyType.Some? && Published(hash, signer, keys)
    requires sig.keyType == signer.keyType.value && sig.i == "" && signer.sign(digest) == Some(sig.b)
    ensures AnyAccepts(keys, sig, digest)
  {
    var k :| 0 <= k < |keys| && keys[k].Matches(signer.keyType.value)
      && forall x :: signer.sign(x).Some? ==> keys[k].verify(x, signer.sign(x).value);
    assert Accepts(keys[k], sig, digest);
  }

  // The verdict on a signature by Sign, from the agreement of the hash inputs.
  lemma {:induction false} VerdictOfSigned(hash: Hash, signer: Signer, keys: seq<PublicKey>, sig: Signature,
      sigH: Header,
                        headers: seq<Header>, body: string, signedBody: string, signedText: string)
    requires signer.keyType.Some? && Published(hash, signer, keys)
    requires sig.keyType == signer.keyType.value && sig.i == "" && sig.bh == hash(signedBody)
    requires signer.sign(hash(signedText)) == Some(sig.b)
    ensures var same := VerifiedBody(sig, body) == signedBody && VerifiedText(sig, sigH, headers) == signedText;
      var verdict := Verdict(hash, keys, sig, sigH, headers, body);
      && (same ==> verdict == (SUCCESS, NoError))
      && (Ideal(hash, signer, keys) && !same ==> verdict.0 == PERMFAIL)
  {
    if VerifiedBody(sig, body) == signedBody && VerifiedText(sig, sigH, headers) == signedText {
      KeyAccepts(hash, signer, keys, sig, hash(signedText));
    }
  }

  // The DKIM round trip. Prepending what Sign returned makes verifySignature succeed on every message that has an
  // empty line and symmetric groups of repeated signed fields; with ideal cryptography, on no other.
  lemma {:induction false} RoundTrip(hash: Hash, signer: Signer, now: nat, dns: Dns, keys: seq<PublicKey>,
      message: string)
    requires GoodSigner(signer, now) && Published(hash, signer, keys) && dns(signer.domain, signer.selector) == Keys(keys)
    requires SignedValue(hash, signer, now, message).Ok?
    ensures var p' := Parse(Prepended(SignedValue(hash, signer, now, message).value, message));
      && p'.Ok? && |p'.value.headers| > 0 && p'.value.headers[0].name == SIG_NAME
      && var r := VerifyOne(hash, dns, p'.value.headers[0], p'.value.headers, p'.value.body);
      && (RoundTrips(message) ==> r.state == SUCCESS && r.domain == signer.domain && r.selector == signer.selector)
      && (Ideal(hash, signer, keys) ==> r.state == if RoundTrips(message) then SUCCESS else PERMFAIL)
  {
    var p := Parse(message).value;
    var head := Head(hash, signer, now, p);
    var text := SignedText(head, p.headers);
    var sig := signer.sign(hash(text)).value;
    var value := SignedValue(hash, signer, now, message).value;
    HashInputsAgree(hash, signer, now, message, value, sig);
    var p' := Parse(Prepended(value, message)).value;
    VerdictOfSigned(hash, signer, keys, Carried(hash, signer, p, sig), p'.headers[0], p'.headers, p'.body,
                    RelaxBody(p.body), text);
  }

  // The same through VerifyMessage: the new signature is the first one found, and it counts.
  lemma {:induction false} VerifyMessageRoundTrip(hash: Hash, signer: Signer, now: nat, dns: Dns,
      keys: seq<PublicKey>, message: string,
                               maxHeaders: nat)
    requires GoodSigner(signer, now) && Published(hash, signer, keys) && dns(signer.domain, signer.selector) == Keys(keys)
    requires SignedValue(hash, signer, now, message).Ok? && RoundTrips(message) && maxHeaders > 0
    ensures var r := Verified(hash, dns, maxHeaders, Prepended(SignedValue(hash, signer, now, message).value, message));
      r.Ok? && r.value.found >= 1 && r.value.valid >= 1 && r.value.results[0].state == SUCCESS
  {
    RoundTrip(hash, signer, now, dns, keys, message);
    var m := Prepended(SignedValue(hash, signer, now, message).value, message);
    FirstVerified(hash, dns, maxHeaders, m, Parse(m).value);
  }

  lemma {:induction false} FirstVerified(hash: Hash, dns: Dns, maxHeaders: nat, m: string, p: Parsed)
    requires Parse(m) == Ok(p) && p.headers != [] && p.headers[0].name == SIG_NAME && maxHeaders > 0
    ensures var r := Verified(hash, dns, maxHeaders, m);
      var one := VerifyOne(hash, dns, p.headers[0], p.headers, p.body);
      r.Ok? && r.value.found >= 1 && r.value.results != [] && r.value.results[0] == one
      && (one.state == SUCCESS ==> r.value.valid >= 1)
  {
    var sigs := Named(p.headers, SIG_NAME);
    FirstNamed(p.headers, SIG_NAME);
    var rs := Verdicts(hash, dns, sigs, p);
    FirstResult(rs[..Min(maxHeaders, |sigs|)]);
  }

  lemma {:induction false} FirstNamed(hs: seq<Header>, name: string)
    requires hs != [] && hs[0].name == name
    ensures Named(hs, name) != [] && Named(hs, name)[0] == hs[0]
  {
    assert hs == [hs[0]] + hs[1..];
    NamedAppend([hs[0]], hs[1..], name);
    assert [hs[0]][..0] == [];
  }

  // The common case: no signed name repeats.
  lemma {:induction false} RoundTripWithoutRepeats(message: string)
    requires Parse(message).Ok? && HasEmptyLine(message) && NoRepeats(Parse(message).value.headers)
    ensures RoundTrips(message)
  {
    NoRepeatsSymmetric(HeadersToSign, Parse(message).value.headers);
  }
}
