/** internal/dkim/verify.go: when a signature is accepted, and what an accepted signature vouches for. */
module VerifyTheorems {
  import opened Text
  import opened Base64
  import opened Message
  import opened Canonical
  import opened Tags
  import opened SigMeaning
  import opened Signing
  import opened Selection
  import opened Verifying

  // ---------------------------------------------------------------- the b= tag

  // (b[ \t\r\n]*=)[^;]+ matches s[i..k], with the "=" at j.
  predicate Match(s: string, i: nat, j: nat, k: nat) {
    && i < j && j + 1 < k <= |s|
    && s[i] == 'b' && (forall n :: i < n < j ==> IsBlank(s[n])) && s[j] == '='
    && (forall n :: j < n < k ==> s[n] != ';') && (k < |s| ==> s[k] == ';')
  }

  ghost predicate MatchFrom(s: string, i: nat) { exists j: nat, k: nat :: Match(s, i, j, k) }

  // The matches from left to right, each cut after its "=".
  ghost predicate Emptied(s: string, out: string)
    decreases |s|
  {
    || ((forall i :: 0 <= i < |s| ==> !MatchFrom(s, i)) && out == s)
    || (exists i: nat, j: nat, k: nat, rest ::
          FirstMatch(s, i, j, k) && Emptied(s[k..], rest) && out == s[..j + 1] + rest)
  }

  ghost predicate FirstMatch(s: string, i: nat, j: nat, k: nat) {
    Match(s, i, j, k) && forall n :: 0 <= n < i ==> !MatchFrom(s, n)
  }

  lemma {:induction false} SkipBlankMeaning(s: string)
    ensures var n := |s| - |SkipBlank(s)|;
      && SkipBlank(s) == s[n..] && (forall k :: 0 <= k < n ==> IsBlank(s[k])) && (n < |s| ==> !IsBlank(s[n]))
  {
    if s != "" && IsBlank(s[0]) {
      SkipBlankMeaning(s[1..]);
      var n := |s[1..]| - |SkipBlank(s[1..])|;
      assert forall k :: 1 <= k < n + 1 ==> s[k] == s[1..][k - 1];
    }
  }

  lemma {:induction false} SkipToMeaning(s: string)
    ensures var n := |s| - |SkipToSemicolon(s)|;
      && SkipToSemicolon(s) == s[n..] && (forall k :: 0 <= k < n ==> s[k] != ';') && (n < |s| ==> s[n] == ';')
  {
    if s != "" && s[0] != ';' {
      SkipToMeaning(s[1..]);
      var n := |s[1..]| - |SkipToSemicolon(s[1..])|;
      assert forall k :: 1 <= k < n + 1 ==> s[k] == s[1..][k - 1];
    }
  }

  lemma {:induction false} TagHere(s: string) returns (j: nat, k: nat)
    requires BTagAt(s).Some?
    ensures Match(s, 0, j, k) && BTagAt(s).value == s[j + 1..] && SkipToSemicolon(BTagAt(s).value) == s[k..]
  {
    j := TagHead(s);
    k := TagValue(s, j + 1);
  }

  lemma {:induction false} TagHead(s: string) returns (j: nat)
    requires BTagAt(s).Some?
    ensures 0 < j && j + 1 < |s| && s[0] == 'b' && s[j] == '=' && s[j + 1] != ';' && BTagAt(s).value == s[j + 1..]
    ensures forall n :: 0 < n < j ==> IsBlank(s[n])
  {
    var t := SkipBlank(s[1..]);
    SkipBlankMeaning(s[1..]);
    j := |s| - |t|;
    assert t == s[j..];
    assert forall n :: 1 <= n < j ==> s[n] == s[1..][n - 1];
  }

  lemma {:induction false} TagValue(s: string, from: nat) returns (k: nat)
    requires from < |s| && s[from] != ';'
    ensures from < k <= |s| && SkipToSemicolon(s[from..]) == s[k..] && (k < |s| ==> s[k] == ';')
    ensures forall n :: from <= n < k ==> s[n] != ';'
  {
    var rest := s[from..];
    SkipToMeaning(rest);
    k := |s| - |SkipToSemicolon(rest)|;
    assert forall n :: from <= n < |s| ==> s[n] == rest[n - from];
  }

  lemma {:induction false} NoTagHere(s: string, j: nat, k: nat)
    requires Match(s, 0, j, k)
    ensures BTagAt(s).Some?
  {
    SkipBlankMeaning(s[1..]);
    var n := |s[1..]| - |SkipBlank(s[1..])|;
    assert forall m :: 1 <= m < |s| ==> s[m] == s[1..][m - 1];
    assert n == j - 1;
  }

  lemma {:induction false} MatchShift(s: string, i: nat, n: nat)
    requires n <= i && n <= |s|
    ensures MatchFrom(s, i) <==> MatchFrom(s[n..], i - n)
  {
    var t := s[n..];
    assert forall m :: n <= m < |s| ==> s[m] == t[m - n];
    if MatchFrom(s, i) {
      var j: nat, k: nat :| Match(s, i, j, k);
      assert Match(t, i - n, j - n, k - n);
    }
    if MatchFrom(t, i - n) {
      var j: nat, k: nat :| Match(t, i - n, j, k);
      assert Match(s, i, j + n, k + n);
    }
  }

  lemma {:induction false} EmptyBTagMeaning(s: string)
    ensures Emptied(s, EmptyBTag(s))
    decreases |s|
  {
    if s == "" {
    } else if BTagAt(s).Some? {
      var j, k := TagHere(s);
      EmptyBTagMeaning(s[k..]);
      assert s[..|s| - |s[j + 1..]|] == s[..j + 1];
      EmptiedHere(s, 0, j, k, EmptyBTag(s[k..]));
    } else {
      EmptyBTagMeaning(s[1..]);
      if MatchFrom(s, 0) {
        var j: nat, k: nat :| Match(s, 0, j, k);
        NoTagHere(s, j, k);
      }
      EmptiedCons(s, EmptyBTag(s[1..]));
    }
  }

  lemma {:induction false} EmptiedHere(s: string, i: nat, j: nat, k: nat, rest: string)
    requires FirstMatch(s, i, j, k) && Emptied(s[k..], rest)
    ensures Emptied(s, s[..j + 1] + rest)
  {}

  lemma {:induction false} EmptiedCons(s: string, out: string)
    requires s != "" && !MatchFrom(s, 0) && Emptied(s[1..], out)
    ensures Emptied(s, [s[0]] + out)
  {
    var t := s[1..];
    if i: nat, j: nat, k: nat, rest :| FirstMatch(t, i, j, k) && Emptied(t[k..], rest) && out == t[..j + 1] + rest {
      MatchCons(s, i, j, k, rest);
    } else {
      assert s == [s[0]] + t;
      NoMatchCons(s);
    }
  }

  lemma {:induction false} NoMatchCons(s: string)
    requires s != "" && !MatchFrom(s, 0) && forall i :: 0 <= i < |s| - 1 ==> !MatchFrom(s[1..], i)
    ensures Emptied(s, s)
  {
    forall i | 0 <= i < |s| ensures !MatchFrom(s, i) {
      if i > 0 { MatchShift(s, i, 1); }
    }
  }

  lemma {:induction false} MatchCons(s: string, i: nat, j: nat, k: nat, rest: string)
    requires s != "" && !MatchFrom(s, 0) && FirstMatch(s[1..], i, j, k) && Emptied(s[1..][k..], rest)
    ensures Emptied(s, [s[0]] + (s[1..][..j + 1] + rest))
  {
    var t := s[1..];
    LaterMatch(s, i, j, k);
    assert t[k..] == s[k + 1..];
    EmptiedHere(s, i + 1, j + 1, k + 1, rest);
    CutCons(s, j, rest);
  }

  lemma {:induction false} CutCons(s: string, j: nat, rest: string)
    requires j + 1 < |s|
    ensures [s[0]] + (s[1..][..j + 1] + rest) == s[..j + 2] + rest
  {
    assert [s[0]] + s[1..][..j + 1] == s[..j + 2];
    Assoc([s[0]], s[1..][..j + 1], rest);
  }

  lemma {:induction false} OneEmptied(s: string, a: string, b: string)
    requires Emptied(s, a) && Emptied(s, b)
    ensures a == b
    decreases |s|
  {
    if exists i :: 0 <= i < |s| && MatchFrom(s, i) {
      var i, j, k, r := MatchOf(s, a);
      var i', j', k', r' := MatchOf(s, b);
      SameFirst(s, i, j, k, i', j', k');
      OneEmptied(s[k..], r, r');
    } else {
      Unmatched(s, a);
      Unmatched(s, b);
    }
  }

  lemma {:induction false} Unmatched(s: string, a: string)
    requires Emptied(s, a) && forall i :: 0 <= i < |s| ==> !MatchFrom(s, i)
    ensures a == s
  {
    if i: nat, j: nat, k: nat, r :| FirstMatch(s, i, j, k) && Emptied(s[k..], r) && a == s[..j + 1] + r {
      assert MatchFrom(s, i);
    }
  }

  lemma {:induction false} SameFirst(s: string, i: nat, j: nat, k: nat, i': nat, j': nat, k': nat)
    requires FirstMatch(s, i, j, k) && FirstMatch(s, i', j', k')
    ensures i == i' && j == j' && k == k'
  {
    assert MatchFrom(s, i) && MatchFrom(s, i');
  }

  lemma {:induction false} MatchOf(s: string, a: string) returns (i: nat, j: nat, k: nat, r: string)
    requires Emptied(s, a) && exists i :: 0 <= i < |s| && MatchFrom(s, i)
    ensures FirstMatch(s, i, j, k) && Emptied(s[k..], r) && a == s[..j + 1] + r
  {
    i, j, k, r :| FirstMatch(s, i, j, k) && Emptied(s[k..], r) && a == s[..j + 1] + r;
  }

  lemma {:induction false} LaterMatch(s: string, i: nat, j: nat, k: nat)
    requires s != "" && !MatchFrom(s, 0) && FirstMatch(s[1..], i, j, k)
    ensures FirstMatch(s, i + 1, j + 1, k + 1)
  {
    var t := s[1..];
    assert forall m :: 1 <= m < |s| ==> s[m] == t[m - 1];
    forall n | 0 <= n < i + 1 ensures !MatchFrom(s, n) {
      if n > 0 { MatchShift(s, n, 1); }
    }
  }

  // ---------------------------------------------------------------- acceptance

  // The canonical body, or as much of it as l= says.
  predicate CutBody(sig: Signature, body: string, cut: string) {
    var c := if sig.cB == Simple then SimpleBody(body) else RelaxBody(body);
    cut <= c && |cut| == if 0 < sig.l <= |c| then sig.l else |c|
  }

  // The sources of the fields in canonical form, each with a line break.
  function CanonicalText(sig: Signature, hs: seq<Header>): string {
    Terminated(Sources(if sig.cH == Simple then hs else Relaxed(hs)))
  }

  function Relaxed(hs: seq<Header>): seq<Header> { seq(|hs|, i requires 0 <= i < |hs| => RelaxHeader(hs[i])) }

  lemma {:induction false} CanonicalTextIs(sig: Signature, hs: seq<Header>)
    ensures FieldText(sig.cH, hs) == CanonicalText(sig, hs)
  {
    if sig.cH == Simple { SimpleTextIs(hs); } else { RelaxedTextIs(hs); }
  }

  lemma {:induction false} SimpleTextIs(hs: seq<Header>)
    ensures FieldText(Simple, hs) == Terminated(Sources(hs))
  {
    if hs != [] {
      var n := |hs| - 1;
      SimpleTextIs(hs[..n]);
      SourcesSnoc(hs[..n], hs[n]);
      TerminatedSnoc(Sources(hs[..n]), hs[n].source);
      assert hs == hs[..n] + [hs[n]];
    }
  }

  lemma {:induction false} RelaxedTextIs(hs: seq<Header>)
    ensures FieldText(Canon.Relaxed, hs) == Terminated(Sources(Relaxed(hs)))
  {
    if hs != [] {
      var n := |hs| - 1;
      RelaxedTextIs(hs[..n]);
      SourcesSnoc(Relaxed(hs[..n]), RelaxHeader(hs[n]));
      TerminatedSnoc(Sources(Relaxed(hs[..n])), RelaxHeader(hs[n]).source);
      assert Relaxed(hs) == Relaxed(hs[..n]) + [RelaxHeader(hs[n])];
    }
  }

  // What is hashed for a signature: the selected fields, then the signature field with its b= tag emptied.
  ghost predicate Hashed(sig: Signature, sigH: Header, headers: seq<Header>, text: string) {
    exists own :: Emptied((if sig.cH == Simple then sigH else RelaxHeader(sigH)).source, own)
               && text == CanonicalText(sig, Selected(sig.h, headers, sigH)) + own
  }

  // A key of the right type and hash, under its rule for the agent's domain, accepts the digest.
  ghost predicate Vouches(k: PublicKey, sig: Signature, digest: seq<Octet>) {
    && k.keyType == sig.keyType && (k.hashes == [] || "sha256" in k.hashes)
    && (k.strict && sig.i != "" ==> exists user :: Without(user, '@') && sig.i == user + "@" + sig.d)
    && k.verify(digest, sig.b)
  }

  ghost predicate Accepted(hash: Hash, dns: Dns, sigH: Header, headers: seq<Header>, body: string, sig: Signature) {
    && ParseSignature(sigH.value) == Ok(sig) && dns(sig.d, sig.s).Keys?
    && (exists cut :: CutBody(sig, body, cut) && hash(cut) == sig.bh)
    && exists text, k :: Hashed(sig, sigH, headers, text) && 0 <= k < |dns(sig.d, sig.s).keys|
                      && Vouches(dns(sig.d, sig.s).keys[k], sig, hash(text))
  }

  lemma {:induction false} HashedMeaning(sig: Signature, sigH: Header, headers: seq<Header>, text: string)
    ensures Hashed(sig, sigH, headers, text) <==> text == VerifiedText(sig, sigH, headers)
  {
    var source := sig.cH.Field(sigH).source;
    EmptyBTagMeaning(source);
    CanonicalTextIs(sig, Selected(sig.h, headers, sigH));
    if own :| Emptied(source, own) && text == CanonicalText(sig, Selected(sig.h, headers, sigH)) + own {
      OneEmptied(source, own, EmptyBTag(source));
    }
  }

  lemma {:induction false} CutMeaning(sig: Signature, body: string, cut: string)
    ensures CutBody(sig, body, cut) <==> cut == VerifiedBody(sig, body)
  {
    var c := sig.cB.Body(body);
    if CutBody(sig, body, cut) { assert cut == c[..|cut|]; }
    assert c[..|c|] == c;
  }

  lemma {:induction false} VouchesMeaning(k: PublicKey, sig: Signature, digest: seq<Octet>)
    requires sig.d != ""
    ensures Vouches(k, sig, digest) <==> Accepts(k, sig, digest)
  {
    if user :| Without(user, '@') && sig.i == user + "@" + sig.d { CutAt(user, sig.d, '@'); }
    if Cut(sig.i, '@').Some? { assert sig.i == Cut(sig.i, '@').value.0 + "@" + DomainOfI(sig.i); }
  }

  lemma {:induction false} AnyVouches(keys: seq<PublicKey>, sig: Signature, sigH: Header, headers: seq<Header>,
      hash: Hash)
    requires sig.d != ""
    ensures AnyAccepts(keys, sig, hash(VerifiedText(sig, sigH, headers))) <==>
      exists text, k :: Hashed(sig, sigH, headers, text) && 0 <= k < |keys| && Vouches(keys[k], sig, hash(text))
  {
    var text := VerifiedText(sig, sigH, headers);
    HashedMeaning(sig, sigH, headers, text);
    if k :| 0 <= k < |keys| && Accepts(keys[k], sig, hash(text)) { VouchesMeaning(keys[k], sig, hash(text)); }
    if t, k :| Hashed(sig, sigH, headers, t) && 0 <= k < |keys| && Vouches(keys[k], sig, hash(t)) {
      HashedMeaning(sig, sigH, headers, t);
      VouchesMeaning(keys[k], sig, hash(t));
    }
  }

  lemma {:induction false} BodyHashMeaning(hash: Hash, sig: Signature, body: string)
    ensures hash(VerifiedBody(sig, body)) == sig.bh <==> exists cut :: CutBody(sig, body, cut) && hash(cut) == sig.bh
  {
    CutMeaning(sig, body, VerifiedBody(sig, body));
    if cut :| CutBody(sig, body, cut) && hash(cut) == sig.bh { CutMeaning(sig, body, cut); }
  }

  lemma {:induction false} AcceptedMeaning(hash: Hash, dns: Dns, sigH: Header, headers: seq<Header>, body: string,
      sig: Signature)
    requires ParseSignature(sigH.value) == Ok(sig) && sig.d != "" && dns(sig.d, sig.s).Keys?
    ensures Accepted(hash, dns, sigH, headers, body, sig) <==>
      Verdict(hash, dns(sig.d, sig.s).keys, sig, sigH, headers, body).0 == SUCCESS
  {
    BodyHashMeaning(hash, sig, body);
    AnyVouches(dns(sig.d, sig.s).keys, sig, sigH, headers, hash);
  }

  // A signature is accepted if and only if it is sound, the body has the hash it names, and a published key vouches for
  // what is hashed. The verdict is temporary exactly if the key could not be looked up for the moment.
  lemma {:induction false} VerdictMeaning(hash: Hash, dns: Dns, sigH: Header, headers: seq<Header>, body: string)
    ensures var r := VerifyOne(hash, dns, sigH, headers, body);
      && (r.state == SUCCESS <==> exists sig :: Accepted(hash, dns, sigH, headers, body, sig))
      && (r.state == TEMPFAIL <==> exists sig :: KeyUnavailable(dns, sigH, sig))
  {
    if ParseSignature(sigH.value).Ok? {
      var sig := ParseSignature(sigH.value).value;
      assert sig.d != "" by { SignatureMeaning(sigH.value, sig); }
      if dns(sig.d, sig.s).Keys? {
        AcceptedMeaning(hash, dns, sigH, headers, body, sig);
      } else {
        assert dns(sig.d, sig.s).temporary ==> KeyUnavailable(dns, sigH, sig);
      }
    }
  }

  predicate KeyUnavailable(dns: Dns, sigH: Header, sig: Signature) {
    ParseSignature(sigH.value) == Ok(sig) && dns(sig.d, sig.s) == LookupError(true)
  }

  // ---------------------------------------------------------------- what an accepted signature covers

  // The first mention of a name selects the last field of that name.
  lemma {:induction false} FirstMention(hTag: seq<string>, name: string) returns (j: nat)
    requires exists k :: 0 <= k < |hTag| && EqualFold(hTag[k], name)
    ensures j < |hTag| && EqualFold(hTag[j], name) && Mentions(hTag[..j], hTag[j]) == 0
  {
    var n := |hTag| - 1;
    if exists k :: 0 <= k < n && EqualFold(hTag[k], name) {
      assert exists k :: 0 <= k < |hTag[..n]| && EqualFold(hTag[..n][k], name) by {
        var k :| 0 <= k < n && EqualFold(hTag[k], name);
        assert hTag[..n][k] == hTag[k];
      }
      j := FirstMention(hTag[..n], name);
      assert hTag[..n][..j] == hTag[..j] && hTag[..n][j] == hTag[j];
    } else {
      j := n;
      NoMention(hTag[..n], hTag[n]);
    }
  }

  lemma {:induction false} NoMention(hTag: seq<string>, name: string)
    requires forall k :: 0 <= k < |hTag| ==> !EqualFold(hTag[k], name)
    ensures Mentions(hTag, name) == 0
  {
    if hTag != [] { NoMention(hTag[..|hTag| - 1], name); }
  }

  lemma {:induction false} PickIsSelected(hTag: seq<string>, j: nat, hs: seq<Header>, sigH: Header)
    requires j < |hTag| && Pick(hTag, j, hs).Some? && Pick(hTag, j, hs).value != sigH
    ensures Pick(hTag, j, hs).value in Selected(hTag, hs, sigH)
  {
    var n := |hTag| - 1;
    if j < n {
      assert hTag[..n][..j] == hTag[..j];
      PickIsSelected(hTag[..n], j, hs, sigH);
    }
  }

  // An accepted signature covers the author: From is among its names, and the last From field of the message is among
  // the fields that are hashed.
  lemma {:induction false} CoversFrom(hash: Hash, dns: Dns, sigH: Header, headers: seq<Header>, body: string,
      sig: Signature)
    requires Accepted(hash, dns, sigH, headers, body, sig) && EqualFold(sigH.name, SIG_NAME)
    ensures exists k :: 0 <= k < |sig.h| && ToLower(sig.h[k]) == "from"
    ensures var all := Named(headers, "From");
      all != [] ==> all[|all| - 1] in Selected(sig.h, headers, sigH)
  {
    SignatureMeaning(sigH.value, sig);
    MentionsFrom(sig.h);
    NotFrom(sigH.name);
    CoversLast(sig.h, headers, sigH, "From");
  }

  lemma {:induction false} MentionsFrom(h: seq<string>)
    requires exists k :: 0 <= k < |h| && ToLower(h[k]) == "from"
    ensures exists k :: 0 <= k < |h| && EqualFold(h[k], "From")
  {
    var k :| 0 <= k < |h| && ToLower(h[k]) == "from";
    assert ToLower("From") == "from";
    assert EqualFold(h[k], "From");
  }

  lemma {:induction false} NotFrom(name: string)
    requires EqualFold(name, SIG_NAME)
    ensures !EqualFold(name, "From")
  {
    assert |ToLower(name)| == |ToLower(SIG_NAME)| != |ToLower("From")|;
  }

  lemma {:induction false} CoversLast(hTag: seq<string>, headers: seq<Header>, sigH: Header, name: string)
    requires exists k :: 0 <= k < |hTag| && EqualFold(hTag[k], name)
    requires !EqualFold(sigH.name, name)
    ensures var all := Named(headers, name); all != [] ==> all[|all| - 1] in Selected(hTag, headers, sigH)
  {
    var all := Named(headers, name);
    if all != [] {
      var j := FirstMention(hTag, name);
      FirstPick(hTag, j, headers, name);
      NamedMembers(headers, name);
      assert all[|all| - 1] in all;
      PickIsSelected(hTag, j, headers, sigH);
    }
  }

  lemma {:induction false} FirstPick(hTag: seq<string>, j: nat, headers: seq<Header>, name: string)
    requires j < |hTag| && EqualFold(hTag[j], name) && Mentions(hTag[..j], hTag[j]) == 0
    ensures var all := Named(headers, name); all != [] ==> Pick(hTag, j, headers) == Some(all[|all| - 1])
  {
    NamedFold(headers, hTag[j], name);
  }
}
