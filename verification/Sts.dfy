/** internal/sts/sts.go: MTA-STS policies (RFC 8461), their validity and the hosts they allow. */
module Sts {
  import opened Text

  datatype Policy = Policy(version: string, mode: string, mxs: seq<string>, maxAge: int)

  const ENFORCE := "enforce"
  const TESTING := "testing"
  const NONE := "none"
  const MAX_AGE_LIMIT := 31557600

  datatype PolicyError = UnknownVersion | InvalidMaxAge | InvalidMode | InvalidMX

  // Policy.Check
  function Check(p: Policy): Option<PolicyError> {
    if p.version != "STSv1" then Some(UnknownVersion)
    else if p.maxAge <= 0 || p.maxAge > MAX_AGE_LIMIT then Some(InvalidMaxAge)
    else if p.mode != ENFORCE && p.mode != TESTING && p.mode != NONE then Some(InvalidMode)
    else if |p.mxs| == 0 then Some(InvalidMX)
    else None
  }

  // A policy is valid if and only if it is of the one version, is meant for up to a year, has a known mode and a server.
  lemma {:induction false} CheckMeaning(p: Policy)
    ensures Check(p).None? <==>
      p.version == "STSv1" && 0 < p.maxAge <= 31557600 && p.mode in ["enforce", "testing", "none"] && p.mxs != []
  {
    assert p.mode in ["enforce", "testing", "none"] <==> p.mode == "enforce" || p.mode == "testing" || p.mode == "none";
  }

  // idna.ToASCII is a parameter; it may fail.
  type Ascii = string -> Option<string>

  // domainToASCII
  function DomainToAscii(domain: string, ascii: Ascii): Option<string> {
    var name := if domain != "" && domain[|domain| - 1] == '.' then domain[..|domain| - 1] else domain;
    ascii(ToLower(name))
  }

  // Names are compared without regard to case and to a final dot.
  lemma {:induction false} AsciiMeaning(name: string, other: string, ascii: Ascii)
    requires (name == "" || name[|name| - 1] != '.') && ToLower(other) == ToLower(name)
    ensures DomainToAscii(other, ascii) == DomainToAscii(other + ".", ascii) == ascii(ToLower(name))
  {
    assert (other + ".")[..|other|] == other;
    if name != "" {
      var n := |name| - 1;
      assert ToLower(other)[n] == ToLower(name)[n];
    }
  }

  // matchDomain
  function MatchDomain(domain: string, pattern: string, ascii: Ascii): bool {
    match (DomainToAscii(domain, ascii), DomainToAscii(pattern, ascii))
    case (Some(d), Some(p)) =>
      d == p || WildcardFits(d, p)
    case _ => false
  }

  predicate WildcardFits(d: string, p: string) {
    |p| >= 2 && p[0] == '*' && p[1] == '.' && Cut(d, '.').Some? && Cut(d, '.').value.1 == p[2..]
  }

  // A pattern allows its own name and, if it starts with a wildcard label, the names with one label in its place.
  ghost predicate Covers(p: string, d: string) {
    || d == p
    || exists host, rest :: p == "*." + rest && d == host + ['.'] + rest && Without(host, '.')
  }

  lemma {:induction false} MatchDomainMeaning(domain: string, pattern: string, ascii: Ascii)
    ensures MatchDomain(domain, pattern, ascii) <==>
      var d, p := DomainToAscii(domain, ascii), DomainToAscii(pattern, ascii);
      d.Some? && p.Some? && Covers(p.value, d.value)
  {
    match (DomainToAscii(domain, ascii), DomainToAscii(pattern, ascii))
    case (Some(d), Some(p)) => 
      if WildcardFits(d, p) { WildcardMatches(d, p); }
      if d != p && Covers(p, d) { WildcardCovers(d, p); }
    case _ =>
  }

  lemma {:induction false} WildcardMatches(d: string, p: string)
    requires WildcardFits(d, p)
    ensures Covers(p, d)
  {
    var host, rest := Cut(d, '.').value.0, p[2..];
    assert p == "*." + rest && d == host + ['.'] + rest && Without(host, '.');
  }

  lemma {:induction false} WildcardCovers(d: string, p: string)
    requires d != p && Covers(p, d)
    ensures WildcardFits(d, p)
  {
    var host, rest :| p == "*." + rest && d == host + ['.'] + rest && Without(host, '.');
    CutAt(host, rest, '.');
    assert p[2..] == rest;
  }

  ghost predicate Allows(policy: Policy, mx: string, ascii: Ascii) {
    policy.mode == ENFORCE ==> exists k :: 0 <= k < |policy.mxs| && MatchDomain(mx, policy.mxs[k], ascii)
  }

  // Policy.MXIsAllowed
  method MXIsAllowed(policy: Policy, mx: string, ascii: Ascii) returns (ok: bool)
    ensures ok <==> Allows(policy, mx, ascii)
  {
    if policy.mode != ENFORCE {
      return true;
    }
    for i := 0 to |policy.mxs|
      invariant forall k :: 0 <= k < i ==> !MatchDomain(mx, policy.mxs[k], ascii)
    {
      if MatchDomain(mx, policy.mxs[i], ascii) {
        return true;
      }
    }
    return false;
  }
}
