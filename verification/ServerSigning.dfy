/** internal/smtpsrv/conn.go, dkimSign: the server signs a message once per signer of the sender's domain. */
module ServerSigning {
  import opened Text
  import opened Base64
  import opened Message
  import opened Canonical
  import opened Tags
  import opened Signing
  import opened Selection
  import opened Verifying
  import opened SigText
  import opened SigReading
  import opened SignedSelection
  import opened DkimRoundTrip
  import opened Crlf

  // strings.ReplaceAll(s, "\r\n", "\n")
  function ToLf(s: string): string {
    if s == "" then ""
    else if StartsCrlf(s) then "\n" + ToLf(s[2..])
    else [s[0]] + ToLf(s[1..])
  }

  // One signer: sign the message as it goes out, and add the header to the stored form.
  function SignStep(hash: Hash, signer: Signer, now: nat, d: string): Result<string, SignError> {
    match SignedValue(hash, signer, now, ToCrlf(d))
    case Err(e) => Err(e)
    case Ok(sig) => Ok(AddHeader(d, SIG_NAME, ToLf(sig)))
  }

  function SignedData(hash: Hash, signers: seq<Signer>, nows: seq<nat>, d: string): Result<string, SignError>
    requires |nows| == |signers|
  {
    if signers == [] then Ok(d)
    else
      match SignStep(hash, signers[0], nows[0], d)
      case Err(e) => Err(e)
      case Ok(d') => SignedData(hash, signers[1..], nows[1..], d')
  }

  // dkimSign: sign, add the header, and go on with the signed message.
  method DkimSign(hash: Hash, signers: seq<Signer>, nows: seq<nat>, data: string) returns (r: Result<string, SignError>)
    requires |nows| == |signers|
    ensures r == SignedData(hash, signers, nows, data)
  {
    var d := data;
    for i := 0 to |signers|
      invariant SignedData(hash, signers[i..], nows[i..], d) == SignedData(hash, signers, nows, data)
    {
      var message := ToCRLF(d);
      var sig := Sign(hash, signers[i], nows[i], message);
      assert signers[i..][1..] == signers[i + 1..] && nows[i..][1..] == nows[i + 1..];
      if sig.Err? {
        return Err(sig.error);
      }
      d := AddHeader(d, SIG_NAME, ToLf(sig.value));
    }
    return Ok(d);
  }

  // ---------------------------------------------------------------- the stored form and the wire form

  lemma {:induction false} SplitToLf(s: string)
    requires Paired(s)
    ensures SplitChar(ToLf(s), '\n') == SplitCrlf(s)
    decreases |s|
  {
    if s == "" {
    } else if StartsCrlf(s) {
      assert |s| > 2 ==> s[2] != '\n';
      PairedTail(s, 2);
      SplitToLf(s[2..]);
      assert ToLf(s)[1..] == ToLf(s[2..]);
    } else {
      assert s[0] != '\r' && s[0] != '\n';
      assert |s| > 1 ==> s[1] != '\n';
      PairedTail(s, 1);
      SplitToLf(s[1..]);
      assert ToLf(s)[1..] == ToLf(s[1..]);
    }
  }

  lemma {:induction false} ToLfEnd(s: string)
    requires s != "" && s[|s| - 1] != '\n'
    ensures ToLf(s) != "" && ToLf(s)[|ToLf(s)| - 1] == s[|s| - 1]
    decreases |s|
  {
    if StartsCrlf(s) {
      ToLfEnd(s[2..]);
    } else if |s| > 1 {
      ToLfEnd(s[1..]);
    } else {
      assert s[1..] == "";
    }
  }

  lemma {:induction false} NoCrTrim(ls: seq<string>)
    requires forall i :: 0 <= i < |ls| ==> Without(ls[i], '\r')
    ensures TrimAll(ls) == ls
  {}

  lemma {:induction false} IndentedLines(sig: string)
    requires Paired(sig)
    ensures SplitChar(Indent(ToLf(sig)), '\n') == SplitCrlf(Fold(sig))
    ensures forall k :: 0 <= k < |SplitCrlf(Fold(sig))| ==> Without(SplitCrlf(Fold(sig))[k], '\r')
  {
    SplitPaired(sig);
    SplitToLf(sig);
    IndentLines(ToLf(sig));
    FoldLines(sig);
  }

  lemma {:induction false} JoinSpaced(m: seq<string>, f: string)
    requires m != [] && JoinCrlf(m) == f
    ensures JoinCrlf([" " + m[0]] + m[1..]) == " " + f
  {
    JoinCons(" ", m[0], m[1..]);
    assert [m[0]] + m[1..] == m;
  }

  // The added field is, on the wire, the folded signature.
  lemma {:induction false} FieldValueOfSignature(sig: string)
    requires Paired(sig) && sig != "" && sig[|sig| - 1] != '\n'
    ensures FieldValue(ToLf(sig)) == " " + Fold(sig)
  {
    var v := ToLf(sig);
    ToLfEnd(sig);
    assert HeaderValue(v) == Indent(v);
    IndentedLines(sig);
    var m := SplitCrlf(Fold(sig));
    SplitCharPrefix(" ", Indent(v), '\n');
    NoCrTrim([" " + m[0]] + m[1..]);
    JoinSplit(Fold(sig));
    JoinSpaced(m, Fold(sig));
  }

  // ---------------------------------------------------------------- the signature is made of whole line breaks

  lemma {:induction false} PlainPaired(s: string)
    requires Free(s, IsBlank)
    ensures Paired(s)
  {}

  lemma {:induction false} TrimmedPaired(s: string)
    requires Paired(s)
    ensures Paired(TrimSpace(s))
  {
    var t := TrimLeft(s, IsSpace);
    TrimLeftSpaceSuffix(s);
    PairedTail(s, |s| - |t|);
    TrimRightSpacePrefix(t);
    PairedPrefix(t, |TrimRight(t, IsSpace)|);
  }

  lemma {:induction false} PairedPrefix(t: string, n: nat)
    requires Paired(t) && n <= |t| && (0 < n ==> t[n - 1] != '\r')
    ensures Paired(t[..n])
  {
    var r := t[..n];
    forall i | 0 <= i < |r|
      ensures r[i] == '\r' ==> i + 1 < |r| && r[i + 1] == '\n'
      ensures r[i] == '\n' ==> i > 0 && r[i - 1] == '\r'
    {
      assert r[i] == t[i];
    }
  }

  lemma {:induction false} TrimLeftSpaceSuffix(s: string)
    ensures |TrimLeft(s, IsSpace)| <= |s| && TrimLeft(s, IsSpace) == s[|s| - |TrimLeft(s, IsSpace)|..]
  {
    if s != "" && IsSpace(s[0]) { TrimLeftSpaceSuffix(s[1..]); }
  }

  lemma {:induction false} TrimRightSpacePrefix(s: string)
    ensures |TrimRight(s, IsSpace)| <= |s| && TrimRight(s, IsSpace) == s[..|TrimRight(s, IsSpace)|]
    ensures var r := TrimRight(s, IsSpace); r != "" ==> !IsSpace(r[|r| - 1])
  {
    if s != "" && IsSpace(s[|s| - 1]) { TrimRightSpacePrefix(s[..|s| - 1]); }
  }

  lemma {:induction false} WrappedPaired(hs: seq<string>, first: bool, line: string)
    requires PlainNames(hs) && Free(line, IsBlank)
    ensures Paired(Wrapped(hs, first, line))
  {
    if hs == [] {
      PlainPaired(line);
    } else {
      var full := |line| + 1 + |hs[0]| > LIMIT;
      var next := (if full then "" else line) + (if first then "" else ":") + hs[0];
      assert PlainName(hs[0]);
      assert Free(next, IsBlank);
      WrappedPaired(hs[1..], false, next);
      PlainPaired(line);
      PairedAppend(line, INDENT);
      PairedAppend(if full then line + INDENT else "", Wrapped(hs[1..], false, next));
    }
  }

  lemma {:induction false} NamesPaired(hs: seq<string>)
    requires PlainNames(hs)
    ensures Paired(FormatNames(hs))
  {
    var w := Wrapped(hs, true, "");
    WrappedPaired(hs, true, "");
    assert forall i :: 0 <= i < |w| ==> (Lower(w[i]) == '\r' <==> w[i] == '\r') && (Lower(w[i]) == '\n' <==> w[i] == '\n');
    TrimmedPaired(ToLower(w));
  }

  lemma {:induction false} BrokenPaired(s: string)
    requires Free(s, IsBlank)
    ensures Paired(Broken(s))
  {
    if |s| > LIMIT {
      var a, b := s[..LIMIT], s[LIMIT..];
      BrokenPaired(b);
      PairedAppend(a, INDENT);
      PairedAppend(a + INDENT, Broken(b));
    }
  }

  lemma {:induction false} LinePaired(l: string)
    requires Without(l, '\r') && Without(l, '\n')
    ensures Paired(l + CRLF)
  {
    PairedAppend(l, CRLF);
  }

  lemma {:induction false} NoReturns(kt: KeyType, d: string, s: string, now: nat, bh: seq<Octet>)
    requires TagSafe(d) && TagSafe(s)
    ensures Without("v=1; a=" + AlgoStr(kt) + "; c=relaxed/relaxed;", '\r')
    ensures Without("d=" + d + "; s=" + s + "; t=" + Decimal(now) + ";", '\r')
    ensures Without("bh=" + Encode(bh) + ";", '\r')
  {
    DecimalNoBreak(now);
    EncodeSafe(bh);
    assert Without(AlgoStr(kt), '\r');
    assert Without(d, '\r') && Without(s, '\r') && Without(Decimal(now), '\r');
    assert forall i :: 0 <= i < |Encode(bh)| ==> !IsBlank(Encode(bh)[i]);
  }

  lemma {:induction false} HeadPaired(kt: KeyType, d: string, s: string, now: nat, names: seq<string>, bh: seq<Octet>)
    requires TagSafe(d) && TagSafe(s) && PlainNames(names)
    ensures Paired(SigHead(AlgoStr(kt), d, s, now, names, bh))
  {
    var a := "v=1; a=" + AlgoStr(kt) + "; c=relaxed/relaxed;";
    var b := "d=" + d + "; s=" + s + "; t=" + Decimal(now) + ";";
    var c := "h=" + FormatNames(names) + ";";
    var e := "bh=" + Encode(bh) + ";";
    NoBreaks(kt, d, s, now, bh);
    NoReturns(kt, d, s, now, bh);
    LinePaired(a);
    LinePaired(b);
    LinePaired(e);
    NamesPaired(names);
    PairedAppend("h=", FormatNames(names));
    PairedAppend("h=" + FormatNames(names), ";");
    PairedAppend(c, CRLF);
    PairedAppend(a + CRLF, b + CRLF);
    PairedAppend((a + CRLF) + (b + CRLF), c + CRLF);
    PairedAppend((a + CRLF) + (b + CRLF) + (c + CRLF), e + CRLF);
    PairedAppend((a + CRLF) + (b + CRLF) + (c + CRLF) + (e + CRLF), "b=");
  }

  lemma {:induction false} ValuePaired(hash: Hash, signer: Signer, now: nat, message: string)
    requires GoodSigner(signer, now) && SignedValue(hash, signer, now, message).Ok?
    ensures var v := SignedValue(hash, signer, now, message).value; Paired(v) && v != "" && v[|v| - 1] == ';'
  {
    var p := Parse(message).value;
    var head := Head(hash, signer, now, p);
    var sig := signer.sign(hash(SignedText(head, p.headers))).value;
    HTagPlain(p.headers);
    HeadPaired(signer.keyType.value, signer.domain, signer.selector, now, HTag(p.headers), hash(RelaxBody(p.body)));
    EncodeSafe(sig);
    BrokenPaired(Encode(sig));
    PairedAppend(head, Broken(Encode(sig)));
    PairedAppend(head + Broken(Encode(sig)), ";");
  }

  // What the server stores, converted for the wire, is the message with the signature prepended.
  lemma {:induction false} StoredText(v: string, d: string)
    requires Paired(v) && v != "" && v[|v| - 1] == ';'
    ensures ToCrlf(AddHeader(d, SIG_NAME, ToLf(v))) == Prepended(v, ToCrlf(d))
  {
    FieldValueOfSignature(v);
    assert Without(SIG_NAME, '\n');
    AddHeaderText(d, SIG_NAME, ToLf(v));
  }

  lemma {:induction false} StoredSignature(hash: Hash, signer: Signer, now: nat, d: string)
    requires GoodSigner(signer, now) && SignStep(hash, signer, now, d).Ok?
    ensures SignedValue(hash, signer, now, ToCrlf(d)).Ok?
    ensures ToCrlf(SignStep(hash, signer, now, d).value)
         == Prepended(SignedValue(hash, signer, now, ToCrlf(d)).value, ToCrlf(d))
  {
    ValuePaired(hash, signer, now, ToCrlf(d));
    StoredText(SignedValue(hash, signer, now, ToCrlf(d)).value, d);
  }

  // ---------------------------------------------------------------- older signatures stay valid

  lemma {:induction false} NamedPrepend(x: Header, hs: seq<Header>, name: string)
    requires !EqualFold(name, x.name)
    ensures Named([x] + hs, name) == Named(hs, name)
  {
    NamedAppend([x], hs, name);
    NamedOther(x, name);
    assert [] + Named(hs, name) == Named(hs, name);
  }

  lemma {:induction false} SelectedPrepend(hTag: seq<string>, x: Header, hs: seq<Header>, sigH: Header)
    requires Apart(hTag, x)
    ensures Selected(hTag, [x] + hs, sigH) == Selected(hTag, hs, sigH)
  {
    if hTag != [] {
      var n := |hTag| - 1;
      SelectedPrepend(hTag[..n], x, hs, sigH);
      NamedPrepend(x, hs, hTag[n]);
    }
  }

  // A signature that mentions names only that Sign signs.
  predicate Ours(h: Header) {
    var sig := ParseSignature(h.value);
    h.name == SIG_NAME && sig.Ok? && forall j :: 0 <= j < |sig.value.h| ==> IsSigned(sig.value.h[j])
  }

  predicate IsSigned(name: string) { exists i :: 0 <= i < |HeadersToSign| && EqualFold(name, HeadersToSign[i]) }

  // A field that is not signed. Signatures are such fields, and so are Received fields.
  predicate NotSigned(x: Header) { !IsSigned(x.name) }

  lemma {:induction false} NotSignedApart(names: seq<string>, x: Header)
    requires NotSigned(x) && forall j :: 0 <= j < |names| ==> IsSigned(names[j])
    ensures Apart(names, x)
  {
    forall j | 0 <= j < |names| ensures !EqualFold(names[j], x.name) {
      var i :| 0 <= i < |HeadersToSign| && EqualFold(names[j], HeadersToSign[i]);
      assert !EqualFold(x.name, HeadersToSign[i]);
    }
  }

  lemma {:induction false} SignaturesNotSigned(x: Header)
    requires x.name == SIG_NAME
    ensures NotSigned(x)
  {
    SignedApart(x);
  }

  // The verdict on such a signature does not change when a field that is not signed is put in front.
  lemma {:induction false} PrependKeepsVerdict(hash: Hash, dns: Dns, h: Header, x: Header, hs: seq<Header>,
      body: string)
    requires Ours(h) && NotSigned(x)
    ensures VerifyOne(hash, dns, h, [x] + hs, body) == VerifyOne(hash, dns, h, hs, body)
  {
    var sig := ParseSignature(h.value).value;
    NotSignedApart(sig.h, x);
    SelectedPrepend(sig.h, x, hs, h);
  }

  lemma {:induction false} SymmetricPrepend(names: seq<string>, x: Header, hs: seq<Header>)
    requires Apart(names, x)
    ensures Symmetric(names, [x] + hs) == Symmetric(names, hs)
  {
    if names != [] {
      var n := |names| - 1;
      SymmetricPrepend(names[..n], x, hs);
      NamedPrepend(x, hs, names[n]);
    }
  }

  lemma {:induction false} StillEmptyLine(name: string, w: string, m: string)
    requires HasEmptyLine(m) && FieldName(name)
    ensures HasEmptyLine(name + ":" + w + CRLF + m)
  {
    LinesPrepended(name, w, m);
    assert "" in SplitCrlf(m);
  }

  lemma {:induction false} StillSymmetric(x: Header, hs: seq<Header>)
    requires NotSigned(x) && Symmetric(HeadersToSign, hs)
    ensures Symmetric(HeadersToSign, [x] + hs)
  {
    forall j | 0 <= j < |HeadersToSign| ensures IsSigned(HeadersToSign[j]) {
      assert EqualFold(HeadersToSign[j], HeadersToSign[j]);
    }
    NotSignedApart(HeadersToSign, x);
    SymmetricPrepend(HeadersToSign, x, hs);
  }

  // ---------------------------------------------------------------- all signatures of the server verify

  ghost predicate Accepted(hash: Hash, dns: Dns, h: Header, p: Parsed) {
    Ours(h) && VerifyOne(hash, dns, h, p.headers, p.body).state == SUCCESS
  }

  // The first k signatures of m verify.
  ghost predicate Carries(hash: Hash, dns: Dns, m: string, k: nat) {
    RoundTrips(m) && CarriesIn(hash, dns, Parse(m).value, k)
  }

  ghost predicate CarriesIn(hash: Hash, dns: Dns, p: Parsed, k: nat) {
    var sigs := Named(p.headers, SIG_NAME);
    k <= |sigs| && forall j :: 0 <= j < k ==> Accepted(hash, dns, sigs[j], p)
  }

  ghost predicate Known(hash: Hash, dns: Dns, signer: Signer, now: nat) {
    && GoodSigner(signer, now)
    && dns(signer.domain, signer.selector).Keys?
    && Published(hash, signer, dns(signer.domain, signer.selector).keys)
  }

  // A field that is not signed, put in front, leaves the signatures as they are.
  lemma {:induction false} OldStayAccepted(hash: Hash, dns: Dns, p: Parsed, x: Header, k: nat)
    requires CarriesIn(hash, dns, p, k) && NotSigned(x)
    ensures forall j :: 0 <= j < k ==>
      Accepted(hash, dns, Named(p.headers, SIG_NAME)[j], Parsed([x] + p.headers, p.body))
  {
    var sigs := Named(p.headers, SIG_NAME);
    forall j | 0 <= j < k ensures Accepted(hash, dns, sigs[j], Parsed([x] + p.headers, p.body)) {
      assert Accepted(hash, dns, sigs[j], p);
      PrependKeepsVerdict(hash, dns, sigs[j], x, p.headers, p.body);
    }
  }

  lemma {:induction false} OccurringSigned(names: seq<string>, hs: seq<Header>)
    requires names <= HeadersToSign
    ensures forall j :: 0 <= j < |Occurring(names, hs)| ==> IsSigned(Occurring(names, hs)[j])
  {
    if names != [] {
      var n := |names| - 1;
      OccurringSigned(names[..n], hs);
      assert EqualFold(names[n], HeadersToSign[n]);
      assert IsSigned(names[n]);
    }
  }

  lemma {:induction false} HTagSigned(hs: seq<Header>)
    ensures forall j :: 0 <= j < |HTag(hs)| ==> IsSigned(LowerAll(HTag(hs))[j])
  {
    OccurringSigned(HeadersToSign, hs);
    var n := |Occurring(HeadersToSign, hs)|;
    forall j | 0 <= j < |HTag(hs)| ensures IsSigned(LowerAll(HTag(hs))[j]) {
      if j < n {
        assert HTag(hs)[j] == Occurring(HeadersToSign, hs)[j];
      } else {
        assert HTag(hs)[j] == ExtraHeaders[j - n];
        ExtraIsSigned(j - n);
        var i :| 0 <= i < |HeadersToSign| && HeadersToSign[i] == ExtraHeaders[j - n];
        assert EqualFold(HTag(hs)[j], HeadersToSign[i]);
      }
      LowerIsSigned(HTag(hs)[j]);
    }
  }

  lemma {:induction false} LowerIsSigned(name: string)
    requires IsSigned(name)
    ensures IsSigned(ToLower(name))
  {
    var i :| 0 <= i < |HeadersToSign| && EqualFold(name, HeadersToSign[i]);
    LowerTwice(name);
    assert EqualFold(ToLower(name), HeadersToSign[i]);
  }

  lemma {:induction false} NewIsAccepted(hash: Hash, dns: Dns, signer: Signer, now: nat, m: string)
    requires Known(hash, dns, signer, now) && RoundTrips(m) && SignedValue(hash, signer, now, m).Ok?
    ensures var w := " " + Fold(SignedValue(hash, signer, now, m).value);
      var x := Header(SIG_NAME, w, SIG_NAME + ":" + w);
      Accepted(hash, dns, x, Parsed([x] + Parse(m).value.headers, Parse(m).value.body))
  {
    var p := Parse(m).value;
    var sig := signer.sign(hash(SignedText(Head(hash, signer, now, p), p.headers))).value;
    var v := SignedValue(hash, signer, now, m).value;
    HashInputsAgree(hash, signer, now, m, v, sig);
    StillRoundTripsSigned(v, m);
    HTagSigned(p.headers);
    DkimRoundTrip.RoundTrip(hash, signer, now, dns, dns(signer.domain, signer.selector).keys, m);
  }

  // A message with a field in front that is not signed still meets the conditions of the round trip.
  lemma {:induction false} StillRoundTrips(name: string, w: string, m: string)
    requires RoundTrips(m) && FieldName(name) && Folded(w) && NotSigned(Header(name, w, name + ":" + w))
    ensures RoundTrips(name + ":" + w + CRLF + m)
    ensures Parse(name + ":" + w + CRLF + m)
         == Ok(Parsed([Header(name, w, name + ":" + w)] + Parse(m).value.headers, Parse(m).value.body))
  {
    ParsePrepended(name, w, m);
    StillEmptyLine(name, w, m);
    StillSymmetric(Header(name, w, name + ":" + w), Parse(m).value.headers);
  }

  lemma {:induction false} StillRoundTripsSigned(v: string, m: string)
    requires RoundTrips(m)
    ensures RoundTrips(Prepended(v, m))
    ensures var w := " " + Fold(v);
      Parse(Prepended(v, m))
      == Ok(Parsed([Header(SIG_NAME, w, SIG_NAME + ":" + w)] + Parse(m).value.headers, Parse(m).value.body))
  {
    FoldedValue(v);
    SignatureInFront(" " + Fold(v), m);
  }

  lemma {:induction false} SignatureInFront(w: string, m: string)
    requires RoundTrips(m) && Folded(w)
    ensures RoundTrips(SIG_NAME + ":" + w + CRLF + m)
    ensures Parse(SIG_NAME + ":" + w + CRLF + m)
         == Ok(Parsed([Header(SIG_NAME, w, SIG_NAME + ":" + w)] + Parse(m).value.headers, Parse(m).value.body))
  {
    SigNameIsField();
    SignaturesNotSigned(Header(SIG_NAME, w, SIG_NAME + ":" + w));
    StillRoundTrips(SIG_NAME, w, m);
  }

  lemma {:induction false} SigNameIsField()
    ensures FieldName(SIG_NAME)
  {}

  lemma {:induction false} SignOnce(hash: Hash, dns: Dns, signer: Signer, now: nat, m: string, k: nat)
    requires Known(hash, dns, signer, now) && Carries(hash, dns, m, k) && SignedValue(hash, signer, now, m).Ok?
    ensures Carries(hash, dns, Prepended(SignedValue(hash, signer, now, m).value, m), k + 1)
  {
    var w := " " + Fold(SignedValue(hash, signer, now, m).value);
    var x := Header(SIG_NAME, w, SIG_NAME + ":" + w);
    StillRoundTripsSigned(SignedValue(hash, signer, now, m).value, m);
    NewIsAccepted(hash, dns, signer, now, m);
    OneMoreCarried(hash, dns, Parse(m).value, x, k);
  }

  lemma {:induction false} OneMoreCarried(hash: Hash, dns: Dns, p: Parsed, x: Header, k: nat)
    requires CarriesIn(hash, dns, p, k) && x.name == SIG_NAME && Accepted(hash, dns, x, Parsed([x] + p.headers, p.body))
    ensures CarriesIn(hash, dns, Parsed([x] + p.headers, p.body), k + 1)
  {
    var q := Parsed([x] + p.headers, p.body);
    SignaturesNotSigned(x);
    OldStayAccepted(hash, dns, p, x, k);
    FirstIsNamed(x, p.headers);
    forall j | 0 <= j < k + 1 ensures Accepted(hash, dns, Named(q.headers, SIG_NAME)[j], q) {
      if j > 0 { assert Named(q.headers, SIG_NAME)[j] == Named(p.headers, SIG_NAME)[j - 1]; }
    }
  }

  lemma {:induction false} FirstIsNamed(x: Header, hs: seq<Header>)
    requires x.name == SIG_NAME
    ensures Named([x] + hs, SIG_NAME) == [x] + Named(hs, SIG_NAME)
  {
    NamedAppend([x], hs, SIG_NAME);
    assert [x][..0] == [];
  }

  // Every signature that dkimSign adds verifies on the finished message, however many signers there are.
  lemma {:induction false} AllSignaturesVerify(hash: Hash, dns: Dns, signers: seq<Signer>, nows: seq<nat>, d: string,
      k: nat)
    requires |nows| == |signers| && forall i :: 0 <= i < |signers| ==> Known(hash, dns, signers[i], nows[i])
    requires Carries(hash, dns, ToCrlf(d), k) && SignedData(hash, signers, nows, d).Ok?
    ensures Carries(hash, dns, ToCrlf(SignedData(hash, signers, nows, d).value), k + |signers|)
    decreases |signers|
  {
    if signers != [] {
      assert Known(hash, dns, signers[0], nows[0]);
      var d' := SignStep(hash, signers[0], nows[0], d).value;
      StoredSignature(hash, signers[0], nows[0], d);
      SignOnce(hash, dns, signers[0], nows[0], ToCrlf(d), k);
      AllSignaturesVerify(hash, dns, signers[1..], nows[1..], d', k + 1);
    }
  }

  // ---------------------------------------------------------------- fields added after signing

  // addReceivedHeader and the fields a hook returns: fields put in front, the first of `fields` first.
  function Topped(d: string, fields: seq<(string, string)>): string {
    if fields == [] then d else AddHeader(Topped(d, fields[1..]), fields[0].0, fields[0].1)
  }

  // Names of fields that are neither signed nor signatures.
  predicate Harmless(fields: seq<(string, string)>) {
    forall i :: 0 <= i < |fields| ==>
      FieldName(fields[i].0) && !IsSigned(fields[i].0) && !EqualFold(SIG_NAME, fields[i].0)
  }

  lemma {:induction false} ToppedOnce(hash: Hash, dns: Dns, d: string, name: string, v: string, k: nat)
    requires Carries(hash, dns, ToCrlf(d), k) && FieldName(name) && !IsSigned(name) && !EqualFold(SIG_NAME, name)
    ensures Carries(hash, dns, ToCrlf(AddHeader(d, name, v)), k)
  {
    var w := FieldValue(v);
    var x := Header(name, w, name + ":" + w);
    FieldValueFolded(v);
    assert Without(name, '\n');
    AddHeaderText(d, name, v);
    StillRoundTrips(name, w, ToCrlf(d));
    OldStayAccepted(hash, dns, Parse(ToCrlf(d)).value, x, k);
    NamedPrepend(x, Parse(ToCrlf(d)).value.headers, SIG_NAME);
  }

  lemma {:induction false} ToppedCarries(hash: Hash, dns: Dns, d: string, fields: seq<(string, string)>, k: nat)
    requires Carries(hash, dns, ToCrlf(d), k) && Harmless(fields)
    ensures Carries(hash, dns, ToCrlf(Topped(d, fields)), k)
  {
    if fields != [] {
      assert Harmless(fields[1..]) by { assert forall i :: 0 <= i < |fields| - 1 ==> fields[1..][i] == fields[i + 1]; }
      ToppedCarries(hash, dns, d, fields[1..], k);
      ToppedOnce(hash, dns, Topped(d, fields[1..]), fields[0].0, fields[0].1, k);
    }
  }

  lemma {:induction false} ReceivedIsHarmless(v: string)
    ensures Harmless([("Received", v)])
  {
    forall i | 0 <= i < |HeadersToSign| ensures !EqualFold("Received", HeadersToSign[i]) { NotReceived(i); }
    var low := ToLower(SIG_NAME);
    assert |low| == 14;
  }

  lemma {:induction false} NotReceived(i: nat)
    requires i < |HeadersToSign|
    ensures !EqualFold("Received", HeadersToSign[i])
  {
    SignName(i);
    var low := ToLower("Received");
    assert |low| == 8 && low[2] == 'c' && NameIndex(low) == 1;
    if i == 1 {
      var other := ToLower(HeadersToSign[1]);
      assert other[2] == 'p';
    }
  }

  // ---------------------------------------------------------------- at the receiver

  lemma {:induction false} LeadingSuccesses(rs: seq<OneResult>, n: nat)
    requires n <= |rs| && forall j :: 0 <= j < n ==> rs[j].state == SUCCESS
    ensures Tally(rs).valid >= n && Tally(rs).found == |rs|
  {
    if rs != [] {
      var m := |rs| - 1;
      LeadingSuccesses(rs[..m], if n <= m then n else m);
    }
  }

  lemma {:induction false} CarriedAreCounted(hash: Hash, dns: Dns, m: string, k: nat, maxHeaders: nat)
    requires Carries(hash, dns, m, k)
    ensures var r := Verified(hash, dns, maxHeaders, m); r.Ok? && r.value.valid >= Min(maxHeaders, k)
  {
    var p := Parse(m).value;
    var sigs := Named(p.headers, SIG_NAME);
    var rs := Verdicts(hash, dns, sigs, p)[..Min(maxHeaders, |sigs|)];
    forall j | 0 <= j < Min(maxHeaders, k) ensures rs[j].state == SUCCESS {
      assert Accepted(hash, dns, sigs[j], p);
    }
    LeadingSuccesses(rs, Min(maxHeaders, k));
  }

  // From the client's message to the receiver: signed, and with the Received field and those of a hook in front, as many
  // signatures are valid as were added, up to the receiver's limit.
  lemma {:induction false} ServerRoundTrip(hash: Hash, dns: Dns, signers: seq<Signer>, nows: seq<nat>, data: string,
      fields: seq<(string, string)>, maxHeaders: nat)
    requires |nows| == |signers| && forall i :: 0 <= i < |signers| ==> Known(hash, dns, signers[i], nows[i])
    requires RoundTrips(ToCrlf(data)) && SignedData(hash, signers, nows, data).Ok? && Harmless(fields)
    ensures var m := ToCrlf(Topped(SignedData(hash, signers, nows, data).value, fields));
      var r := Verified(hash, dns, maxHeaders, m);
      r.Ok? && r.value.valid >= Min(maxHeaders, |signers|)
  {
    var d := SignedData(hash, signers, nows, data).value;
    AllSignaturesVerify(hash, dns, signers, nows, data, 0);
    ToppedCarries(hash, dns, d, fields, |signers|);
    CarriedAreCounted(hash, dns, ToCrlf(Topped(d, fields)), |signers|, maxHeaders);
  }
}
