/** internal/dkim/verify.go: checking the signatures of a message (section 6.1 of RFC 6376). */
module Verifying {
  import opened Text
  import opened Base64
  import opened Message
  import opened Tags
  import opened Signing
  import opened Selection

  // ---------------------------------------------------------------- the b= tag

  function SkipBlank(s: string): (r: string)
    ensures |r| <= |s|
  {
    if s != "" && IsBlank(s[0]) then SkipBlank(s[1..]) else s
  }

  function SkipToSemicolon(s: string): (r: string)
    ensures |r| <= |s|
  {
    if s != "" && s[0] != ';' then SkipToSemicolon(s[1..]) else s
  }

  // (b[ \t\r\n]*=)[^;]+ matches at the start of s; the text after the "=".
  function BTagAt(s: string): (r: Option<string>)
    ensures r.Some? ==> |r.value| < |s|
  {
    if s == "" || s[0] != 'b' then None
    else
      var t := SkipBlank(s[1..]);
      if |t| >= 2 && t[0] == '=' && t[1] != ';' then Some(t[1..]) else None
  }

  // bTag.ReplaceAllString(s, "$1")
  function EmptyBTag(s: string): string
    decreases |s|
  {
    if s == "" then ""
    else
      match BTagAt(s)
      case Some(rest) => s[..|s| - |rest|] + EmptyBTag(SkipToSemicolon(rest))
      case None => [s[0]] + EmptyBTag(s[1..])
  }

  // ---------------------------------------------------------------- verification

  datatype PublicKey = PublicKey(keyType: KeyType, hashes: seq<string>, strict: bool,
                                 verify: (seq<Octet>, seq<Octet>) -> bool)
  {
    predicate Matches(kt: KeyType) { keyType == kt && (hashes == [] || "sha256" in hashes) }
  }

  datatype Lookup = Keys(keys: seq<PublicKey>) | LookupError(temporary: bool)
  // Domain and selector to the published keys.
  type Dns = (string, string) -> Lookup

  datatype State = SUCCESS | PERMFAIL | TEMPFAIL
  datatype VerifyError = NoError | BadSignature(error: SigError) | KeyLookup | BodyHashMismatch | VerificationFailed
  datatype OneResult = OneResult(domain: string, selector: string, b: string, state: State, error: VerifyError)

  // The bytes verifySignature feeds to the second hash.
  function VerifiedText(sig: Signature, sigH: Header, headers: seq<Header>): string {
    FieldText(sig.cH, Selected(sig.h, headers, sigH)) + EmptyBTag(sig.cH.Field(sigH).source)
  }

  // The canonical body, cut at l= when that tag is there.
  function VerifiedBody(sig: Signature, body: string): string {
    var c := sig.cB.Body(body);
    if 0 < sig.l <= |c| then c[..sig.l] else c
  }

  predicate Accepts(k: PublicKey, sig: Signature, digest: seq<Octet>) {
    && k.Matches(sig.keyType)
    && (sig.i != "" && k.strict ==> DomainOfI(sig.i) == sig.d)
    && k.verify(digest, sig.b)
  }

  predicate AnyAccepts(keys: seq<PublicKey>, sig: Signature, digest: seq<Octet>) {
    exists k :: 0 <= k < |keys| && Accepts(keys[k], sig, digest)
  }

  function Verdict(hash: Hash, keys: seq<PublicKey>, sig: Signature, sigH: Header, headers: seq<Header>, body: string)
    : (State, VerifyError)
  {
    if hash(VerifiedBody(sig, body)) != sig.bh then (PERMFAIL, BodyHashMismatch)
    else if AnyAccepts(keys, sig, hash(VerifiedText(sig, sigH, headers))) then (SUCCESS, NoError)
    else (PERMFAIL, VerificationFailed)
  }

  function VerifyOne(hash: Hash, dns: Dns, sigH: Header, headers: seq<Header>, body: string): OneResult {
    match ParseSignature(sigH.value)
    case Err(e) => OneResult("", "", "", PERMFAIL, BadSignature(e))
    case Ok(sig) =>
      match dns(sig.d, sig.s)
      case LookupError(temporary) =>
        OneResult(sig.d, sig.s, Encode(sig.b), if temporary then TEMPFAIL else PERMFAIL, KeyLookup)
      case Keys(keys) =>
        var v := Verdict(hash, keys, sig, sigH, headers, body);
        OneResult(sig.d, sig.s, Encode(sig.b), v.0, v.1)
  }

  // The loop over the published keys.
  method TryKeys(keys: seq<PublicKey>, sig: Signature, bSum: seq<Octet>) returns (ok: bool)
    ensures ok == AnyAccepts(keys, sig, bSum)
  {
    for k := 0 to |keys|
      invariant forall j :: 0 <= j < k ==> !Accepts(keys[j], sig, bSum)
    {
      var pubKey := keys[k];
      if !pubKey.Matches(sig.keyType) {
        continue;
      }
      if sig.i != "" && pubKey.strict && DomainOfI(sig.i) != sig.d {
        continue;
      }
      if !pubKey.verify(bSum, sig.b) {
        continue;
      }
      return true;
    }
    return false;
  }

  // Steps 1 to 4 of the verification, after the key was found.
  method CheckHashes(hash: Hash, keys: seq<PublicKey>, sig: Signature, sigH: Header, headers: seq<Header>, body: string)
    returns (state: State, error: VerifyError)
    ensures (state, error) == Verdict(hash, keys, sig, sigH, headers, body)
  {
    if hash(VerifiedBody(sig, body)) != sig.bh {
      return PERMFAIL, BodyHashMismatch;
    }
    var included := HeadersToInclude(sigH, sig.h, headers);
    var b := WriteFields(sig.cH, included);
    b := b + EmptyBTag(sig.cH.Field(sigH).source);
    var ok := TryKeys(keys, sig, hash(b));
    if ok {
      return SUCCESS, NoError;
    }
    return PERMFAIL, VerificationFailed;
  }

  // verifySignature
  method VerifySignature(hash: Hash, dns: Dns, sigH: Header, headers: seq<Header>, body: string)
    returns (result: OneResult)
    ensures result == VerifyOne(hash, dns, sigH, headers, body)
  {
    var parsed := ParseSignature(sigH.value);
    if parsed.Err? {
      return OneResult("", "", "", PERMFAIL, BadSignature(parsed.error));
    }
    var sig := parsed.value;
    result := OneResult(sig.d, sig.s, Encode(sig.b), PERMFAIL, NoError);
    var found := dns(sig.d, sig.s);
    if found.LookupError? {
      return result.(state := if found.temporary then TEMPFAIL else PERMFAIL, error := KeyLookup);
    }
    var state, error := CheckHashes(hash, found.keys, sig, sigH, headers, body);
    return result.(state := state, error := error);
  }

  datatype VerifyResult = VerifyResult(found: nat, valid: nat, results: seq<OneResult>)

  // The tally of the verdicts.
  function Tally(rs: seq<OneResult>): VerifyResult {
    if rs == [] then VerifyResult(0, 0, [])
    else
      var init, r := Tally(rs[..|rs| - 1]), rs[|rs| - 1];
      VerifyResult(init.found + 1, init.valid + (if r.state == SUCCESS then 1 else 0), init.results + [r])
  }

  function Verdicts(hash: Hash, dns: Dns, sigs: seq<Header>, p: Parsed): (rs: seq<OneResult>)
    ensures |rs| == |sigs|
  {
    seq(|sigs|, k requires 0 <= k < |sigs| => VerifyOne(hash, dns, sigs[k], p.headers, p.body))
  }

  function Verified(hash: Hash, dns: Dns, maxHeaders: nat, message: string): Result<VerifyResult, ParseError> {
    match Parse(message)
    case Err(e) => Err(e)
    case Ok(p) =>
      var sigs := Named(p.headers, SIG_NAME);
      Ok(Tally(Verdicts(hash, dns, sigs, p)[..Min(maxHeaders, |sigs|)]))
  }

  ghost predicate AreVerdicts(rs: seq<OneResult>, hash: Hash, dns: Dns, sigs: seq<Header>, p: Parsed) {
    && |rs| == |sigs|
    && forall k {:trigger VerifyOne(hash, dns, sigs[k], p.headers, p.body)} :: 0 <= k < |sigs| ==>
         rs[k] == VerifyOne(hash, dns, sigs[k], p.headers, p.body)
  }

  method VerdictAt(hash: Hash, dns: Dns, sigs: seq<Header>, p: Parsed, i: nat, ghost rs: seq<OneResult>)
    returns (res: OneResult)
    requires i < |sigs| && AreVerdicts(rs, hash, dns, sigs, p)
    ensures res == rs[i]
  {
    res := VerifySignature(hash, dns, sigs[i], p.headers, p.body);
  }

  // The loop over the signatures; at most maxHeaders are looked at.
  method CountSignatures(hash: Hash, dns: Dns, maxHeaders: nat, sigs: seq<Header>, p: Parsed, ghost rs: seq<OneResult>)
    returns (results: VerifyResult)
    requires AreVerdicts(rs, hash, dns, sigs, p)
    ensures results == Tally(rs[..Min(maxHeaders, |sigs|)])
  {
    results := VerifyResult(0, 0, []);
    var i := 0;
    while i < |sigs|
      invariant 0 <= i <= Min(maxHeaders, |sigs|)
      invariant results == Tally(rs[..i])
    {
      if i >= maxHeaders {
        break;
      }
      var res := VerdictAt(hash, dns, sigs, p, i, rs);
      assert rs[..i + 1][..i] == rs[..i];
      results := VerifyResult(results.found + 1, results.valid, results.results + [res]);
      if res.state == SUCCESS {
        results := results.(valid := results.valid + 1);
      }
      i := i + 1;
    }
  }

  // VerifyMessage
  method VerifyMessage(hash: Hash, dns: Dns, maxHeaders: nat, message: string)
    returns (r: Result<VerifyResult, ParseError>)
    ensures r == Verified(hash, dns, maxHeaders, message)
  {
    var parsed := ParseMessage(message);
    if parsed.Err? {
      return Err(parsed.error);
    }
    var sigs := FindAll(parsed.value.headers, SIG_NAME);
    var results := CountSignatures(hash, dns, maxHeaders, sigs, parsed.value,
                                   Verdicts(hash, dns, sigs, parsed.value));
    return Ok(results);
  }

  // The first verdict is the first result, and counts.
  lemma {:induction false} FirstResult(rs: seq<OneResult>)
    requires rs != []
    ensures var r := Tally(rs);
      |r.results| == r.found == |rs| && r.results[0] == rs[0] && (rs[0].state == SUCCESS ==> r.valid >= 1)
  {
    var n := |rs| - 1;
    if n == 0 {
      assert rs[..0] == [];
    } else {
      FirstResult(rs[..n]);
    }
  }
}
