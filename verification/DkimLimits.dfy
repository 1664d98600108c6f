/** What a signature by Sign does and does not survive: fields added afterwards are always noticed, and there are
  * messages on which the round trip fails.
  */
module DkimLimits {
  import opened Text
  import opened Base64
  import opened Message
  import opened Canonical
  import opened Tags
  import opened Signing
  import opened Selection
  import opened Verifying
  import opened SigText
  import opened SignedSelection
  import opened DkimRoundTrip

  // ---------------------------------------------------------------- added fields

  lemma {:induction false} PickedIsThere(hTag: seq<string>, j: nat, hs: seq<Header>)
    requires j < |hTag| && AllWellFolded(hs) && Pick(hTag, j, hs).Some?
    ensures WellFolded(Pick(hTag, j, hs).value)
  {
    NamedMembers(hs, hTag[j]);
    assert Pick(hTag, j, hs).value in Named(hs, hTag[j]);
  }

  lemma {:induction false} SelectedWellFolded(hTag: seq<string>, hs: seq<Header>, sigH: Header)
    requires AllWellFolded(hs)
    ensures AllWellFolded(Selected(hTag, hs, sigH))
  {
    if hTag != [] {
      var n := |hTag| - 1;
      SelectedWellFolded(hTag[..n], hs, sigH);
      if Pick(hTag, n, hs).Some? { PickedIsThere(hTag, n, hs); }
    }
  }

  // A From, Subject, Date, To, Cc or Message-ID field put anywhere into a signed message changes what is hashed, so
  // that with ideal cryptography the signature fails.
  lemma {:induction false} AddedFieldIsNoticed(sig: Signature, sigH: Header, hs: seq<Header>, at: nat, x: Header,
      i: nat)
    requires sig.cH == Relaxed && sig.h == LowerAll(HTag(hs)) && sigH.name == SIG_NAME
    requires AllWellFolded(hs) && WellFolded(x) && at <= |hs|
    requires i < |ExtraHeaders| && EqualFold(x.name, ExtraHeaders[i])
    ensures VerifiedText(sig, sigH, [sigH] + Insert(hs, at, x)) != VerifiedText(sig, sigH, [sigH] + hs)
  {
    var hs' := Insert(hs, at, x);
    SelectedOnSigned(hs, sigH);
    SelectedLower(HTag(hs), hs, sigH);
    SelectedLower(HTag(hs), hs', sigH);
    AddedFieldIsSelected(hs, at, x, i, sigH);
    InsertWellFolded(hs, at, x);
    SelectedWellFolded(HTag(hs), hs', sigH);
    SelectedWellFolded(HTag(hs), hs, sigH);
    LongerTextDiffers(Selected(HTag(hs), hs', sigH), Selected(HTag(hs), hs, sigH),
                      EmptyBTag(Relaxed.Field(sigH).source));
  }

  lemma {:induction false} InsertWellFolded(hs: seq<Header>, at: nat, x: Header)
    requires AllWellFolded(hs) && WellFolded(x) && at <= |hs|
    ensures AllWellFolded(Insert(hs, at, x))
  {}

  lemma {:induction false} LongerTextDiffers(a: seq<Header>, b: seq<Header>, t: string)
    requires AllWellFolded(a) && AllWellFolded(b) && |a| != |b|
    ensures FieldText(Relaxed, a) + t != FieldText(Relaxed, b) + t
  {
    FieldTextInjective(a, b);
    assert |RelaxedLines(a)| != |RelaxedLines(b)|;
    CancelRight(FieldText(Relaxed, a), FieldText(Relaxed, b), t);
  }

  // ---------------------------------------------------------------- messages that do not round-trip

  lemma {:induction false} SymmetricLast(names: seq<string>, hs: seq<Header>)
    requires |names| > 0
    ensures Symmetric(names, hs) ==> Symmetric(names[..|names| - 1], hs) && Mirrored(hs, names[|names| - 1])
  {}

  lemma {:induction false} SymmetricAt(names: seq<string>, hs: seq<Header>, i: nat)
    requires i < |names|
    ensures Symmetric(names, hs) ==> Mirrored(hs, names[i])
  {
    SymmetricLast(names, hs);
    if i < |names| - 1 {
      SymmetricAt(names[..|names| - 1], hs, i);
    }
  }

  // Two different instances of a signed name are enough to make the signature fail.
  lemma {:induction false} DifferentInstancesFail(message: string, i: nat)
    requires Parse(message).Ok? && i < |HeadersToSign|
    requires var g := Named(Parse(message).value.headers, HeadersToSign[i]);
      |g| == 2 && RelaxHeader(g[0]).source != RelaxHeader(g[1]).source
    ensures !RoundTrips(message)
  {
    var hs := Parse(message).value.headers;
    TwoDiffer(RelaxedLines(Named(hs, HeadersToSign[i])));
    SymmetricAt(HeadersToSign, hs, i);
  }

  lemma {:induction false} TwoDiffer<T>(s: seq<T>)
    requires |s| == 2 && s[0] != s[1]
    ensures s != Rev(s)
  {
    assert Rev(s)[0] == s[1];
  }

  // A signature by Sign for this message is rejected: what verification hashes is not what Sign hashed, for every key,
  // and with ideal cryptography the verdict is a permanent failure.
  ghost predicate Rejected(hash: Hash, signer: Signer, now: nat, dns: Dns, keys: seq<PublicKey>, message: string)
    requires Parse(message).Ok? && signer.keyType.Some?
  {
    SignedValue(hash, signer, now, message).Ok? ==>
      var value := SignedValue(hash, signer, now, message).value;
      var p, r := Parse(message).value, Parse(Prepended(value, message));
      && r.Ok? && r.value.headers != []
      && (exists sig :: OtherInputs(hash, signer, now, p, r.value, sig))
      && (Ideal(hash, signer, keys) ==>
            VerifyOne(hash, dns, r.value.headers[0], r.value.headers, r.value.body).state == PERMFAIL)
  }

  // Reading this signature, verification hashes another body or another header text than Sign.
  ghost predicate OtherInputs(hash: Hash, signer: Signer, now: nat, p: Parsed, r: Parsed, sig: seq<Octet>)
    requires signer.keyType.Some? && r.headers != []
  {
    var carried := Carried(hash, signer, p, sig);
    && ParseSignature(r.headers[0].value) == Ok(carried)
    && (|| VerifiedBody(carried, r.body) != RelaxBody(p.body)
        || VerifiedText(carried, r.headers[0], r.headers) != SignedText(Head(hash, signer, now, p), p.headers))
  }

  lemma {:induction false} FailsToVerify(hash: Hash, signer: Signer, now: nat, dns: Dns, keys: seq<PublicKey>,
      message: string)
    requires GoodSigner(signer, now) && Published(hash, signer, keys) && dns(signer.domain, signer.selector) == Keys(keys)
    requires Parse(message).Ok? && !RoundTrips(message)
    ensures Rejected(hash, signer, now, dns, keys, message)
  {
    if SignedValue(hash, signer, now, message).Ok? {
      var p := Parse(message).value;
      var value := SignedValue(hash, signer, now, message).value;
      var sig := signer.sign(hash(SignedText(Head(hash, signer, now, p), p.headers))).value;
      DkimRoundTrip.RoundTrip(hash, signer, now, dns, keys, message);
      HashInputsAgree(hash, signer, now, message, value, sig);
      assert OtherInputs(hash, signer, now, p, Parse(Prepended(value, message)).value, sig);
    }
  }

  // A message with two recipients fields: "To:a", "To:b" and an empty body. Every signature for it is rejected.
  lemma {:induction false} TwoToFieldsFail(hash: Hash, signer: Signer, now: nat, dns: Dns, keys: seq<PublicKey>)
    requires GoodSigner(signer, now) && Published(hash, signer, keys) && dns(signer.domain, signer.selector) == Keys(keys)
    ensures var m := JoinCrlf(["To:a", "To:b", "", ""]);
      Parse(m).Ok? && HasEmptyLine(m) && !RoundTrips(m) && Rejected(hash, signer, now, dns, keys, m)
  {
    TwoToFieldsFailed();
    FailsToVerify(hash, signer, now, dns, keys, JoinCrlf(["To:a", "To:b", "", ""]));
  }

  lemma {:induction false} TwoToFieldsFailed()
    ensures var m := JoinCrlf(["To:a", "To:b", "", ""]);
      Parse(m).Ok? && HasEmptyLine(m) && !RoundTrips(m)
  {
    var lines: seq<string> := ["To:a", "To:b", "", ""];
    var m := JoinCrlf(lines);
    SplitJoin(lines);
    var hs := [Header("To", "a", "To:a"), Header("To", "b", "To:b")];
    TwoToFields(lines);
    ToIsSigned();
    BothNamedTo(hs);
    ToLinesDiffer();
    DifferentInstancesFail(m, 4);
  }

  lemma {:induction false} ToIsSigned()
    ensures |HeadersToSign| > 4 && HeadersToSign[4] == "To"
  {}

  lemma {:induction false} TwoToFields(lines: seq<string>)
    requires lines == ["To:a", "To:b", "", ""]
    ensures ParseLines(lines).Ok?
    ensures ParseLines(lines).value.headers == [Header("To", "a", "To:a"), Header("To", "b", "To:b")]
  {
    var top := lines[..2];
    FirstEmptyUnique(lines, 2);
    assert "To" + [':'] + "a" == "To:a" && "To" + [':'] + "b" == "To:b";
    ToLine([], "To:a", "a");
    var a := Header("To", "a", "To:a");
    OneField("To:a", a);
    assert top[..1] == ["To:a"] && top[1] == "To:b";
    assert Fields(top[..1]) == Ok([a]);
    ToLine([Header("To", "a", "To:a")], "To:b", "b");
  }

  lemma {:induction false} OneField(line: string, h: Header)
    requires AddLine([], line) == Ok([] + [h])
    ensures Fields([line]) == Ok([h])
  {
    assert [line][..0] == [];
    assert [] + [h] == [h];
  }

  lemma {:induction false} ToLine(hs: seq<Header>, line: string, value: string)
    requires line == "To" + [':'] + value
    ensures AddLine(hs, line) == Ok(hs + [Header("To", value, line)])
  {
    CutAt("To", value, ':');
    assert line[0] == 'T';
  }

  lemma {:induction false} BothNamedTo(hs: seq<Header>)
    requires |hs| == 2 && hs[0].name == hs[1].name == "To"
    ensures Named(hs, "To") == hs
  {
    OneNamedTo(hs[0]);
    OneNamedTo(hs[1]);
    NamedAppend([hs[0]], [hs[1]], "To");
    assert hs == [hs[0]] + [hs[1]];
  }

  lemma {:induction false} OneNamedTo(h: Header)
    requires h.name == "To"
    ensures Named([h], "To") == [h]
  {
    assert [h][..0] == [];
  }

  // The canonical form of a value of one visible character.
  lemma {:induction false} RelaxOne(c: char)
    requires !IsBlank(c)
    ensures RelaxValue([c]) == [c]
  {
    var s := [c];
    assert s[1..] == "" && [c] + "" == s;
    assert Unfold(s) == s;
    assert Squeeze(s) == s;
  }

  lemma {:induction false} ToLinesDiffer()
    ensures RelaxHeader(Header("To", "a", "To:a")).source != RelaxHeader(Header("To", "b", "To:b")).source
  {
    RelaxOne('a');
    RelaxOne('b');
    LastDiffers(TrimRight(ToLower("To"), IsWsp) + ":", "a", "b");
  }

  lemma {:induction false} LastDiffers(pre: string, x: string, y: string)
    requires |x| == |y| == 1 && x != y
    ensures pre + x != pre + y
  {
    assert (pre + x)[|pre|..] == x && (pre + y)[|pre|..] == y;
  }

  // A message of one header line and nothing else. Every signature for it is rejected.
  lemma {:induction false} NoEmptyLineFails(hash: Hash, signer: Signer, now: nat, dns: Dns, keys: seq<PublicKey>)
    requires GoodSigner(signer, now) && Published(hash, signer, keys) && dns(signer.domain, signer.selector) == Keys(keys)
    ensures Parse("To:a").Ok? && !HasEmptyLine("To:a") && Rejected(hash, signer, now, dns, keys, "To:a")
  {
    NoEmptyLineFailed();
    FailsToVerify(hash, signer, now, dns, keys, "To:a");
  }

  lemma {:induction false} NoEmptyLineFailed()
    ensures Parse("To:a").Ok? && !HasEmptyLine("To:a") && !RoundTrips("To:a")
  {
    var lines := ["To:a"];
    assert JoinCrlf(lines) == "To:a";
    SplitJoin(lines);
    assert FirstEmpty(lines) == 1 && lines[..1] == lines && lines[..0] == [];
    assert "To" + [':'] + "a" == "To:a";
    ToLine([], "To:a", "a");
  }
}
