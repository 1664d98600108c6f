/** internal/aliases/aliases.go: cleaning addresses, and the keys of the alias map. */
module AliasClean {
  import opened Text
  import opened Crlf

  // ---------------------------------------------------------------- the two string loops

  // The part of s before the first separator.
  function CutAny(s: string, seps: string): (r: string)
    ensures |r| <= |s| && r == s[..|r|]
    ensures forall i :: 0 <= i < |r| ==> r[i] !in seps
    ensures |r| < |s| ==> s[|r|] in seps
  {
    if s == "" || s[0] in seps then "" else [s[0]] + CutAny(s[1..], seps)
  }

  lemma {:induction false} CutAnyUnique(s: string, seps: string, r: string)
    requires |r| <= |s| && r == s[..|r|] && (forall i :: 0 <= i < |r| ==> r[i] !in seps)
    requires |r| < |s| ==> s[|r|] in seps
    ensures CutAny(s, seps) == r
  {
    var q := CutAny(s, seps);
    assert forall i :: 0 <= i < |r| ==> s[i] == r[i] && s[i] !in seps;
    assert forall i :: 0 <= i < |q| ==> s[i] == q[i] && s[i] !in seps;
  }

  // removeAllAfter: cutting at each separator in turn is cutting at the first of any of them.
  method RemoveAllAfter(s: string, seps: string) returns (r: string)
    ensures r == CutAny(s, seps)
  {
    r := s;
    for k := 0 to |seps|
      invariant |r| <= |s| && r == s[..|r|]
      invariant forall i :: 0 <= i < |r| ==> r[i] !in seps[..k]
      invariant |r| < |s| ==> s[|r|] in seps[..k]
    {
      var i := IndexOf(r, seps[k]);
      assert seps[..k + 1] == seps[..k] + [seps[k]];
      if i < |r| {
        assert r[i] == s[i];
        r := r[..i];
      } else {
        assert r[..i] == r;
      }
    }
    assert seps[..|seps|] == seps;
    CutAnyUnique(s, seps, r);
  }

  function Drop(s: string, chars: string): (r: string)
    ensures forall i :: 0 <= i < |r| ==> r[i] !in chars
  {
    if s == "" then "" else (if s[0] in chars then "" else [s[0]]) + Drop(s[1..], chars)
  }

  lemma {:induction false} DropAppend(a: string, b: string, chars: string)
    ensures Drop(a + b, chars) == Drop(a, chars) + Drop(b, chars)
  {
    if a == "" {
      assert a + b == b;
    } else {
      assert (a + b)[1..] == a[1..] + b;
      DropAppend(a[1..], b, chars);
    }
  }

  lemma {:induction false} DropNothing(s: string, chars: string)
    requires forall i :: 0 <= i < |s| ==> s[i] !in chars
    ensures Drop(s, chars) == s
  {
    if s != "" {
      DropNothing(s[1..], chars);
      assert s == [s[0]] + s[1..];
    }
  }

  lemma {:induction false} DropAgain(s: string, chars: string, c: char)
    ensures Drop(Drop(s, chars), [c]) == Drop(s, chars + [c])
  {
    if s != "" {
      DropAgain(s[1..], chars, c);
      DropAppend(if s[0] in chars then "" else [s[0]], Drop(s[1..], chars), [c]);
      assert [s[0]][1..] == "";
    }
  }

  // removeChars: replacing one character after the other removes them all.
  method RemoveChars(s: string, chars: string) returns (r: string)
    ensures r == Drop(s, chars)
  {
    r := s;
    DropNothing(s, "");
    for k := 0 to |chars|
      invariant r == Drop(s, chars[..k])
    {
      DropAgain(s, chars[..k], chars[k]);
      assert chars[..k + 1] == chars[..k] + [chars[k]];
      r := Drop(r, [chars[k]]);
    }
    assert chars[..|chars|] == chars;
  }

  // ---------------------------------------------------------------- cleaning

  // The separators, the characters to drop, and the normaliser of user names (the input on error).
  datatype Rules = Rules(seps: string, drops: string, norm: string -> string)

  function CleanedUser(r: Rules, user: string): string {
    var p := CutAny(user, r.seps);
    Drop(p, r.drops) + user[|p|..]
  }

  function CleanDrops(r: Rules, addr: string): string {
    var (user, domain) := Split(addr);
    r.norm(CleanedUser(r, user)) + "@" + domain
  }

  function CleanAll(r: Rules, addr: string): string {
    var (user, domain) := Split(addr);
    r.norm(Drop(CutAny(user, r.seps), r.drops)) + "@" + domain
  }

  // RemoveDropCharacters: the loop over the characters before the first separator.
  method RemoveDropCharacters(r: Rules, addr: string) returns (clean: string)
    ensures clean == CleanDrops(r, addr)
  {
    var (user, domain) := Split(addr);
    var first := |CutAny(user, r.seps)|;
    var head := user[..first];
    var nu := "";
    for i := 0 to |head|
      invariant nu == Drop(head[..i], r.drops)
    {
      assert head[..i + 1] == head[..i] + [head[i]];
      DropAppend(head[..i], [head[i]], r.drops);
      assert [head[i]][1..] == "";
      if head[i] !in r.drops {
        nu := nu + [head[i]];
      }
    }
    assert head[..|head|] == head;
    nu := nu + user[first..];
    return r.norm(nu) + "@" + domain;
  }

  // RemoveDropsAndSuffix
  method RemoveDropsAndSuffix(r: Rules, addr: string) returns (clean: string)
    ensures clean == CleanAll(r, addr)
  {
    var (user, domain) := Split(addr);
    var cut := RemoveAllAfter(user, r.seps);
    var kept := RemoveChars(cut, r.drops);
    return r.norm(kept) + "@" + domain;
  }

  // ---------------------------------------------------------------- laws

  function Special(r: Rules, s: string): string {
    if s == "" then ""
    else (if s[0] in r.seps || s[0] in r.drops || s[0] == '@' then [s[0]] else "") + Special(r, s[1..])
  }

  // The normaliser is idempotent, neither creates nor removes separators, drop characters or "@",
  // and may be applied before or after a cut.
  ghost predicate Lawful(r: Rules) { forall s :: LawfulAt(r, s) }

  ghost predicate LawfulAt(r: Rules, s: string) {
    && r.norm(r.norm(s)) == r.norm(s)
    && Special(r, r.norm(s)) == Special(r, s)
    && r.norm(CutAny(r.norm(s), r.seps)) == r.norm(CutAny(s, r.seps))
  }

  lemma {:induction false} SpecialAppend(r: Rules, a: string, b: string)
    ensures Special(r, a + b) == Special(r, a) + Special(r, b)
  {
    if a == "" {
      assert a + b == b;
    } else {
      assert (a + b)[1..] == a[1..] + b;
      SpecialAppend(r, a[1..], b);
    }
  }

  lemma {:induction false} SpecialIn(r: Rules, s: string, c: char)
    ensures c in Special(r, s) <==> c in s && (c in r.seps || c in r.drops || c == '@')
  {
    if s != "" {
      SpecialIn(r, s[1..], c);
      assert s == [s[0]] + s[1..];
    }
  }

  // Text whose first special character is a separator is not changed by dropping before the first separator.
  lemma {:induction false} NothingToDrop(r: Rules, s: string)
    requires Special(r, s) == "" || Special(r, s)[0] in r.seps
    ensures Drop(CutAny(s, r.seps), r.drops) == CutAny(s, r.seps)
  {
    if s != "" && s[0] !in r.seps {
      assert Special(r, s) == "" + Special(r, s[1..]) == Special(r, s[1..]);
      NothingToDrop(r, s[1..]);
      var c := CutAny(s, r.seps);
      assert c == [s[0]] + CutAny(s[1..], r.seps);
      assert c[1..] == CutAny(s[1..], r.seps);
      assert s[0] !in r.drops;
    }
  }

  lemma {:induction false} SpecialOfClean(r: Rules, user: string)
    requires Without(user, '@')
    ensures var x := CleanedUser(r, user); Special(r, x) == "" || Special(r, x)[0] in r.seps
    ensures CutAny(CleanedUser(r, user), r.seps) == Drop(CutAny(user, r.seps), r.drops)
    ensures Without(CleanedUser(r, user), '@')
  {
    var p := CutAny(user, r.seps);
    var d, suf := Drop(p, r.drops), user[|p|..];
    KeptPart(r, user);
    NoSpecials(r, d);
    SpecialAppend(r, d, suf);
    CutAnyUnique(d + suf, r.seps, d);
    assert forall c :: c in d + suf ==> c in d || c in suf;
  }

  lemma {:induction false} KeptPart(r: Rules, user: string)
    ensures forall c :: c in Drop(CutAny(user, r.seps), r.drops) ==> c in user && c !in r.seps && c !in r.drops
  {
    DropPart(CutAny(user, r.seps), r.drops);
  }

  lemma {:induction false} DropPart(s: string, chars: string)
    ensures forall c :: c in Drop(s, chars) ==> c in s && c !in chars
  {
    if s != "" {
      DropPart(s[1..], chars);
      assert s == [s[0]] + s[1..];
    }
  }

  lemma {:induction false} NoSpecials(r: Rules, s: string)
    requires forall c :: c in s ==> c !in r.seps && c !in r.drops && c != '@'
    ensures Special(r, s) == ""
  {
    if s != "" {
      assert s == [s[0]] + s[1..];
      assert s[0] in s;
      NoSpecials(r, s[1..]);
    }
  }

  lemma {:induction false} NoAt(r: Rules, s: string)
    requires Lawful(r) && Without(s, '@')
    ensures Without(r.norm(s), '@')
  {
    assert LawfulAt(r, s);
    SpecialIn(r, s, '@');
    SpecialIn(r, r.norm(s), '@');
    assert '@' !in r.norm(s);
  }

  lemma {:induction false} UserHasNoAt(addr: string)
    ensures Without(Split(addr).0, '@')
  {}

  // Splitting a cleaned address gives its cleaned user back.
  lemma {:induction false} SplitClean(r: Rules, user: string, domain: string)
    requires Lawful(r) && Without(user, '@')
    ensures Split(r.norm(user) + "@" + domain) == (r.norm(user), domain)
  {
    NoAt(r, user);
    SplitAddress(r.norm(user), domain);
  }

  lemma {:induction false} CleanAgain(r: Rules, x: string)
    requires Special(r, x) == "" || Special(r, x)[0] in r.seps
    ensures CleanedUser(r, x) == x
  {
    NothingToDrop(r, x);
    var p := CutAny(x, r.seps);
    assert p + x[|p|..] == x;
  }

  lemma {:induction false} CleanFixed(r: Rules, user: string)
    requires Lawful(r) && Without(user, '@')
    ensures var x := r.norm(CleanedUser(r, user));
      && CleanedUser(r, x) == x && r.norm(x) == x
      && r.norm(Drop(CutAny(x, r.seps), r.drops)) == r.norm(Drop(CutAny(user, r.seps), r.drops))
  {
    var y := CleanedUser(r, user);
    var x := r.norm(y);
    assert LawfulAt(r, y);
    SpecialOfClean(r, user);
    CleanAgain(r, x);
    NothingToDrop(r, x);
  }

  // Both cleaners are idempotent, and removing the suffix absorbs an earlier removal of drop characters.
  lemma {:induction false} CleaningLaws(r: Rules, addr: string)
    requires Lawful(r)
    ensures CleanDrops(r, CleanDrops(r, addr)) == CleanDrops(r, addr)
    ensures CleanAll(r, CleanDrops(r, addr)) == CleanAll(r, addr)
    ensures CleanAll(r, CleanAll(r, addr)) == CleanAll(r, addr)
  {
    var (user, domain) := Split(addr);
    UserHasNoAt(addr);
    SpecialOfClean(r, user);
    SplitClean(r, CleanedUser(r, user), domain);
    CleanFixed(r, user);
    CleanAllTwice(r, user, domain);
  }

  lemma {:induction false} CleanAllTwice(r: Rules, user: string, domain: string)
    requires Lawful(r) && Without(user, '@')
    ensures var d := Drop(CutAny(user, r.seps), r.drops);
      CleanAll(r, r.norm(d) + "@" + domain) == r.norm(d) + "@" + domain
  {
    var p := CutAny(user, r.seps);
    var d := Drop(p, r.drops);
    DropPart(p, r.drops);
    assert forall c :: c in d ==> c in p && c !in r.drops;
    assert forall c :: c in p ==> c in user && c !in r.seps;
    assert '@' !in user && '@' !in p && '@' !in d;
    NoSpecials(r, d);
    SplitClean(r, d, domain);
    var x := r.norm(d);
    assert LawfulAt(r, d);
    assert Special(r, x) == "";
    NothingToDrop(r, x);
    NoSeps(r, x);
  }

  lemma {:induction false} NoSeps(r: Rules, x: string)
    requires Special(r, x) == ""
    ensures CutAny(x, r.seps) == x
  {
    forall i | 0 <= i < |x| ensures x[i] !in r.seps {
      SpecialIn(r, x, x[i]);
      assert x[i] in x;
    }
    CutAnyUnique(x, r.seps, x);
  }

  // ---------------------------------------------------------------- keys

  // normalize.Addr on an address, for a domain normaliser (the input on error).
  function NormAddr(r: Rules, normDomain: string -> string, addr: string): string {
    var (user, domain) := Split(addr);
    r.norm(user) + "@" + normDomain(domain)
  }

  // The key under which a line of the file for `domain` is stored.
  function ParseKey(r: Rules, normDomain: string -> string, lhs: string, domain: string): string {
    NormAddr(r, normDomain, CleanDrops(r, lhs + "@" + domain))
  }

  // Two spellings of a user that differ only in drop characters before the first separator and in what the
  // normaliser takes away.
  predicate SameSpelling(r: Rules, u: string, v: string) { r.norm(CleanedUser(r, u)) == r.norm(CleanedUser(r, v)) }

  // Every spelling of an address finds the entry that was stored for any spelling of it.
  lemma {:induction false} KeysAgree(r: Rules, normDomain: string -> string, lhs: string, user: string, domain: string)
    requires Lawful(r) && Without(lhs, '@') && Without(user, '@') && normDomain(domain) == domain
    requires SameSpelling(r, lhs, user)
    ensures CleanDrops(r, user + "@" + domain) == ParseKey(r, normDomain, lhs, domain)
  {
    SplitAddress(lhs, domain);
    SplitAddress(user, domain);
    SpecialOfClean(r, lhs);
    SplitClean(r, CleanedUser(r, lhs), domain);
    SplitNormed(r, CleanedUser(r, lhs), domain);
  }

  lemma {:induction false} SplitNormed(r: Rules, u: string, domain: string)
    requires Lawful(r) && Without(u, '@')
    ensures r.norm(Split(r.norm(u) + "@" + domain).0) == r.norm(u)
  {
    SplitClean(r, u, domain);
    assert LawfulAt(r, u);
  }

  // Inserting a drop character before the first separator is another spelling.
  lemma {:induction false} InsertedDrop(r: Rules, a: string, c: char, b: string)
    requires c in r.drops && c !in r.seps && CutAny(a, r.seps) == a
    ensures SameSpelling(r, a + [c] + b, a + b)
  {
    CleanedAppend(r, a, b);
    assert forall i :: 0 <= i < |a| ==> a[i] !in r.seps;
    CutAnyUnique(a + [c], r.seps, a + [c]);
    CleanedAppend(r, a + [c], b);
    DropAppend(a, [c], r.drops);
    assert [c][1..] == "" && Drop([c], r.drops) == "";
    assert Drop(a, r.drops) + "" == Drop(a, r.drops);
  }

  lemma {:induction false} CleanedAppend(r: Rules, a: string, b: string)
    requires CutAny(a, r.seps) == a
    ensures CleanedUser(r, a + b) == Drop(a, r.drops) + CleanedUser(r, b)
  {
    var p := CutAny(b, r.seps);
    var s := a + b;
    assert forall i :: 0 <= i < |a| ==> a[i] !in r.seps;
    assert a + p == s[..|a + p|];
    assert |p| < |b| ==> s[|a + p|] == b[|p|];
    CutAnyUnique(s, r.seps, a + p);
    DropAppend(a, p, r.drops);
    assert s[|a + p|..] == b[|p|..];
    Assoc(Drop(a, r.drops), Drop(p, r.drops), b[|p|..]);
  }

  // ---------------------------------------------------------------- a lawful normaliser, and the rewritten sender

  predicate IsLetter(c: char) { 'a' <= c <= 'z' || 'A' <= c <= 'Z' }

  lemma {:induction false} LowerSpecial(r: Rules, s: string)
    requires forall c :: c in r.seps || c in r.drops ==> !IsLetter(c)
    ensures Special(r, ToLower(s)) == Special(r, s)
  {
    if s != "" {
      LowerSpecial(r, s[1..]);
      assert ToLower(s)[1..] == ToLower(s[1..]);
      assert IsLetter(s[0]) <==> IsLetter(Lower(s[0]));
      assert !IsLetter(s[0]) ==> Lower(s[0]) == s[0];
    }
  }

  lemma {:induction false} LowerCut(s: string, seps: string)
    requires forall c :: c in seps ==> !IsLetter(c)
    ensures CutAny(ToLower(s), seps) == ToLower(CutAny(s, seps))
  {
    var p := CutAny(s, seps);
    var low := ToLower(s);
    var q := ToLower(p);
    assert q == low[..|q|];
    forall i | 0 <= i < |q| ensures q[i] !in seps {
      assert q[i] == Lower(p[i]);
      assert IsLetter(p[i]) <==> IsLetter(q[i]);
    }
    CutAnyUnique(low, seps, q);
  }

  // Lower-casing obeys the laws when no separator and no drop character is a letter.
  lemma {:induction false} LowerCaseIsLawful(r: Rules)
    requires r.norm == ToLower && forall c :: c in r.seps || c in r.drops ==> !IsLetter(c)
    ensures Lawful(r)
  {
    forall s ensures LawfulAt(r, s) {
      LowerTwice(s);
      LowerSpecial(r, s);
      LowerCut(s, r.seps);
      LowerTwice(CutAny(s, r.seps));
    }
  }

  function ReplaceAt(s: string): string {
    if s == "" then "" else [if s[0] == '@' then '=' else s[0]] + ReplaceAt(s[1..])
  }

  // internal/queue/queue.go, rewriteSender; the domain goes through an IDNA conversion.
  function RewriteSender(from: string, original: string, idna: string -> string): string {
    UserOf(original) + "+fwd_from=" + ReplaceAt(from) + "@" + idna(DomainOf(original))
  }

  lemma {:induction false} ReplaceAtHasNone(s: string)
    ensures Without(ReplaceAt(s), '@')
  {
    if s != "" { ReplaceAtHasNone(s[1..]); }
  }

  // The rewritten sender is the forwarding user, at the converted domain, with the whole sender in the suffix.
  lemma {:induction false} RewriteMeaning(from: string, original: string, idna: string -> string, suffix: string)
    requires |suffix| == |from| && forall i :: 0 <= i < |from| ==> suffix[i] == if from[i] == '@' then '=' else from[i]
    ensures Split(RewriteSender(from, original, idna)) ==
      (UserOf(original) + "+fwd_from=" + suffix, idna(DomainOf(original)))
  {
    ReplaceAtMeaning(from);
    assert suffix == ReplaceAt(from);
    UserHasNoAt(original);
    ReplaceAtHasNone(from);
    SplitAddress(UserOf(original) + "+fwd_from=" + suffix, idna(DomainOf(original)));
  }

  lemma {:induction false} ReplaceAtMeaning(s: string)
    ensures |ReplaceAt(s)| == |s| && forall i :: 0 <= i < |s| ==> ReplaceAt(s)[i] == if s[i] == '@' then '=' else s[i]
  {
    if s != "" { ReplaceAtMeaning(s[1..]); }
  }

  // Mail sent back to the rewritten sender reaches the user that forwarded it, when "+" separates suffixes.
  lemma {:induction false} RewrittenSenderCleansBack(r: Rules, from: string, original: string, idna: string -> string)
    requires '+' in r.seps
    ensures UserOf(CleanAll(r, RewriteSender(from, original, idna))) == UserOf(CleanAll(r, original))
  {
    var u := UserOf(original);
    UserHasNoAt(original);
    ReplaceAtHasNone(from);
    var v := u + "+fwd_from=" + ReplaceAt(from);
    SplitAddress(v, idna(DomainOf(original)));
    var p := CutAny(u, r.seps);
    assert v[..|u|] == u;
    assert v[|u|] == '+';
    assert p == v[..|p|];
    if |p| < |u| { assert v[|p|] == u[|p|]; }
    CutAnyUnique(v, r.seps, p);
    CleanAllUser(r, p, idna(DomainOf(original)), DomainOf(original));
  }

  lemma {:induction false} CleanAllUser(r: Rules, p: string, d: string, e: string)
    ensures UserOf(r.norm(Drop(p, r.drops)) + "@" + d) == UserOf(r.norm(Drop(p, r.drops)) + "@" + e)
  {
    var x := r.norm(Drop(p, r.drops));
    UserBeforeAt(x, d);
    UserBeforeAt(x, e);
  }

  lemma {:induction false} UserBeforeAt(x: string, d: string)
    ensures UserOf(x + "@" + d) == CutAny(x, "@")
  {
    var u := CutAny(x, "@");
    assert Without(u, '@') by { assert forall i :: 0 <= i < |u| ==> u[i] !in "@"; }
    var s := x + "@" + d;
    if |u| < |x| {
      assert x[|u|] in "@";
      assert s == u + ['@'] + s[|u| + 1..];
      CutAt(u, s[|u| + 1..], '@');
    } else {
      assert u == x;
      SplitAddress(x, d);
    }
  }
}
