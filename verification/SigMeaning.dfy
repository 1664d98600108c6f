/** internal/dkim/header.go: which DKIM-Signature fields are accepted, and what they say. */
module SigMeaning {
  import opened Text
  import opened Base64
  import opened Canonical
  import opened Tags

  // ---------------------------------------------------------------- tag lists

  datatype Tag = Tag(name: string, value: string)

  // A piece "name=value" says this, the white space around the two left out.
  ghost predicate Says(piece: string, t: Tag) {
    exists a, b :: Without(a, '=') && piece == a + "=" + b && t == Tag(TrimSpace(a), TrimSpace(b)) && t.name != ""
  }

  // The map has exactly these tags, no two of them with the same name.
  ghost predicate IsMapOf(ts: seq<Tag>, tags: TagMap) {
    && (forall j, k :: 0 <= j < k < |ts| ==> ts[j].name != ts[k].name)
    && (forall k :: 0 <= k < |ts| ==> ts[k].name in tags && tags[ts[k].name] == ts[k].value)
    && (forall t :: t in tags ==> exists k :: 0 <= k < |ts| && ts[k].name == t)
  }

  ghost predicate AllSay(pieces: seq<string>, ts: seq<Tag>) {
    |ts| == |pieces| && forall k :: 0 <= k < |pieces| ==> Says(pieces[k], ts[k])
  }

  // Every piece is a tag, no two have the same name, and the map has exactly these tags.
  ghost predicate Reads(pieces: seq<string>, tags: TagMap) { exists ts :: AllSay(pieces, ts) && IsMapOf(ts, tags) }

  lemma {:induction false} OnePiece(tags: TagMap, p: string, t: Tag)
    requires Says(p, t)
    ensures AddTag(tags, p) == if t.name in tags then Err(DuplicateTag) else Ok(tags[t.name := t.value])
  {
    var a, b :| Without(a, '=') && p == a + "=" + b && t == Tag(TrimSpace(a), TrimSpace(b));
    CutAt(a, b, '=');
  }

  lemma {:induction false} AddedPiece(tags: TagMap, p: string) returns (t: Tag)
    requires AddTag(tags, p).Ok?
    ensures Says(p, t) && t.name !in tags && AddTag(tags, p) == Ok(tags[t.name := t.value])
  {
    var x := Cut(p, '=').value;
    t := Tag(TrimSpace(x.0), TrimSpace(x.1));
  }

  lemma {:induction false} MapInit(ts: seq<Tag>, tags: TagMap)
    requires IsMapOf(ts, tags) && ts != []
    ensures var n := |ts| - 1; var was := tags - {ts[n].name};
      IsMapOf(ts[..n], was) && ts[n].name !in was && tags == was[ts[n].name := ts[n].value]
  {
    var n := |ts| - 1;
    var init, was := ts[..n], tags - {ts[n].name};
    forall t | t in was ensures exists k :: 0 <= k < |init| && init[k].name == t {
      var k :| 0 <= k < |ts| && ts[k].name == t;
      assert init[k] == ts[k];
    }
  }

  lemma {:induction false} MapSnoc(ts: seq<Tag>, tags: TagMap, t: Tag)
    requires IsMapOf(ts, tags) && t.name !in tags
    ensures IsMapOf(ts + [t], tags[t.name := t.value])
  {
    var all, more := ts + [t], tags[t.name := t.value];
    assert all[|ts|] == t;
    forall name | name in more ensures exists k :: 0 <= k < |all| && all[k].name == name {
      if name in tags {
        var k :| 0 <= k < |ts| && ts[k].name == name;
        assert all[k].name == name;
      }
    }
  }

  lemma {:induction false} TagsOfRead(pieces: seq<string>) returns (ts: seq<Tag>)
    requires TagsOf(pieces).Ok?
    ensures AllSay(pieces, ts) && IsMapOf(ts, TagsOf(pieces).value)
  {
    if pieces == [] {
      ts := [];
    } else {
      var n := |pieces| - 1;
      var init := TagsOfRead(pieces[..n]);
      var was := TagsOf(pieces[..n]).value;
      var t := AddedPiece(was, pieces[n]);
      MapSnoc(init, was, t);
      ts := init + [t];
      SaySnoc(pieces, init, t);
    }
  }

  lemma {:induction false} SaySnoc(pieces: seq<string>, ts: seq<Tag>, t: Tag)
    requires pieces != [] && AllSay(pieces[..|pieces| - 1], ts) && Says(pieces[|pieces| - 1], t)
    ensures AllSay(pieces, ts + [t])
  {
    var n := |pieces| - 1;
    forall k | 0 <= k < |pieces| ensures Says(pieces[k], (ts + [t])[k]) {
      if k < n { assert Says(pieces[..n][k], ts[k]) && pieces[..n][k] == pieces[k]; }
    }
  }

  lemma {:induction false} ReadTagsOf(pieces: seq<string>, ts: seq<Tag>, tags: TagMap)
    requires AllSay(pieces, ts) && IsMapOf(ts, tags)
    ensures TagsOf(pieces) == Ok(tags)
  {
    if pieces == [] {
      NoTags(ts, tags);
    } else {
      var n := |pieces| - 1;
      SayInit(pieces, ts);
      MapInit(ts, tags);
      ReadTagsOf(pieces[..n], ts[..n], tags - {ts[n].name});
      OnePiece(tags - {ts[n].name}, pieces[n], ts[n]);
    }
  }

  lemma {:induction false} NoTags(ts: seq<Tag>, tags: TagMap)
    requires IsMapOf(ts, tags) && ts == []
    ensures tags == map[]
  {}

  lemma {:induction false} SayInit(pieces: seq<string>, ts: seq<Tag>)
    requires AllSay(pieces, ts) && pieces != []
    ensures var n := |pieces| - 1; AllSay(pieces[..n], ts[..n]) && Says(pieces[n], ts[n])
  {
    var n := |pieces| - 1;
    forall k | 0 <= k < n ensures Says(pieces[..n][k], ts[..n][k]) { assert Says(pieces[k], ts[k]); }
  }

  // A list of tags: pieces between semicolons, one more semicolon at the end being allowed.
  ghost predicate IsTagList(s: string, tags: TagMap) {
    exists pieces :: Listed(pieces, TrimSpace(s)) && Reads(pieces, tags)
  }

  predicate Listed(pieces: seq<string>, t: string) {
    && pieces != [] && (forall k :: 0 <= k < |pieces| ==> Without(pieces[k], ';'))
    && (t == JoinChar(pieces, ';') + ";" || (t == JoinChar(pieces, ';') && (t == "" || t[|t| - 1] != ';')))
  }

  lemma {:induction false} PiecesMeaning(t: string, pieces: seq<string>)
    ensures SplitChar(DropFinalSemicolon(t), ';') == pieces <==> Listed(pieces, t)
  {
    var d := DropFinalSemicolon(t);
    JoinSplitChar(d, ';');
    if Listed(pieces, t) {
      assert (JoinChar(pieces, ';') + ";")[..|JoinChar(pieces, ';')|] == JoinChar(pieces, ';');
      SplitCharJoin(pieces, ';');
    }
    if t != d { assert t == d + ";"; }
  }

  // parseTags accepts exactly the lists of tags, and reads them.
  lemma {:induction false} TagListMeaning(s: string, tags: TagMap)
    ensures ParseTags(s) == Ok(tags) <==> IsTagList(s, tags)
  {
    var pieces := SplitChar(DropFinalSemicolon(TrimSpace(s)), ';');
    PiecesMeaning(TrimSpace(s), pieces);
    if ParseTags(s) == Ok(tags) {
      var ts := TagsOfRead(pieces);
    }
    if ps, ts :| Listed(ps, TrimSpace(s)) && AllSay(ps, ts) && IsMapOf(ts, tags) {
      PiecesMeaning(TrimSpace(s), ps);
      ReadTagsOf(ps, ts, tags);
    }
  }

  // ---------------------------------------------------------------- numbers

  predicate Zeros(s: string) { forall i :: 0 <= i < |s| ==> s[i] == '0' }

  // s is n in decimal, perhaps with zeros in front.
  ghost predicate Numeral(s: string, n: nat) { exists z :: Zeros(z) && s == z + Decimal(n) }

  lemma {:induction false} NumeralDigits(z: string, n: nat)
    requires Zeros(z)
    ensures Digits(z + Decimal(n)) == Some(n)
  {
    var s := z + Decimal(n);
    if n < 10 {
      assert s[..|s| - 1] == z;
      ZeroDigits(z);
    } else {
      assert s[..|s| - 1] == z + Decimal(n / 10);
      NumeralDigits(z, n / 10);
    }
  }

  lemma {:induction false} ZeroDigits(z: string)
    requires Zeros(z)
    ensures Digits(z) == Some(0)
  {
    if z != "" { ZeroDigits(z[..|z| - 1]); }
  }

  lemma {:induction false} DigitsNumeral(s: string) returns (z: string)
    requires s != "" && Digits(s).Some?
    ensures Zeros(z) && s == z + Decimal(Digits(s).value)
  {
    var init, c := s[..|s| - 1], s[|s| - 1];
    var d := c as int - 48;
    assert s == init + [c];
    if init == "" {
      z := "";
      OneDigit(c, d);
    } else {
      z := DigitsNumeral(init);
      var m := Digits(init).value;
      MoreDigits(m, c, d);
      if m == 0 {
        assert init == z + "0";
        z := init;
      } else {
        Assoc(z, Decimal(m), [c]);
      }
    }
  }

  lemma {:induction false} OneDigit(c: char, d: nat)
    requires IsDigit(c) && d == c as int - 48
    ensures Decimal(d) == [c]
  {}

  lemma {:induction false} MoreDigits(m: nat, c: char, d: nat)
    requires IsDigit(c) && d == c as int - 48
    ensures Decimal(m * 10 + d) == if m == 0 then [c] else Decimal(m) + [c]
  {
    assert (m * 10 + d) / 10 == m && (m * 10 + d) % 10 == d;
  }

  lemma {:induction false} UintMeaning(s: string, n: nat)
    ensures ParseUint(s) == Some(n) <==> n < 0x1_0000_0000_0000_0000 && Numeral(s, n)
  {
    if s != "" && Digits(s).Some? { var z := DigitsNumeral(s); }
    if z :| Zeros(z) && s == z + Decimal(n) { NumeralDigits(z, n); }
  }

  // A time: a number below 2^63 with an optional sign, not negative.
  ghost predicate Time(s: string, n: nat) {
    && n < 0x8000_0000_0000_0000
    && (|| Numeral(s, n)
        || (s != "" && s[0] == '+' && Numeral(s[1..], n))
        || (s != "" && s[0] == '-' && n == 0 && Numeral(s[1..], 0)))
  }

  lemma {:induction false} TimeMeaning(s: string, n: nat)
    ensures ParseTime(s) == Some(n) <==> Time(s, n)
  {
    UintMeaning(s, n);
    if s != "" {
      UintMeaning(s[1..], n);
      NumeralStart(s, n);
      var t := if s[0] == '+' || s[0] == '-' then s[1..] else s;
      if ParseUint(t).Some? { UintMeaning(t, ParseUint(t).value); }
    } else {
      assert !Numeral(s, n);
    }
  }

  lemma {:induction false} NumeralStart(s: string, n: nat)
    requires s != ""
    ensures Numeral(s, n) ==> IsDigit(s[0])
  {
    if z :| Zeros(z) && s == z + Decimal(n) {
      assert IsDigit(Decimal(n)[0]);
    }
  }

  // ---------------------------------------------------------------- signatures

  // The items of a list with colons, white space left out.
  ghost predicate IsList(items: seq<string>, s: string) {
    && items != [] && (forall k :: 0 <= k < |items| ==> Without(items[k], ':'))
    && JoinChar(items, ':') == Remove(s, IsBlank)
  }

  lemma {:induction false} ListMeaning(s: string, items: seq<string>)
    requires s != ""
    ensures List(s) == items <==> IsList(items, s)
  {
    JoinSplitChar(Remove(s, IsBlank), ':');
    if IsList(items, s) { SplitCharJoin(items, ':'); }
  }

  function CanonName(c: Canon): string { if c == Simple then "simple" else "relaxed" }

  // The c= tag: nothing, "header" or "header/", or "header/body"; what is not named is simple.
  predicate Names(c: string, header: Canon, body: Canon) {
    || (c == "" && header == Simple && body == Simple)
    || ((c == CanonName(header) || c == CanonName(header) + "/") && body == Simple)
    || c == CanonName(header) + "/" + CanonName(body)
  }

  lemma {:induction false} CanonMeaning(c: string, header: Canon, body: Canon)
    ensures CanonPair(c) == Some((header, body)) <==> Names(c, header, body)
  {
    if CanonPair(c) == Some((header, body)) { CanonRead(c, header, body); }
    if Names(c, header, body) { CanonWritten(c, header, body); }
  }

  lemma {:induction false} CanonRead(c: string, header: Canon, body: Canon)
    requires CanonPair(c) == Some((header, body))
    ensures Names(c, header, body)
  {
    CanonNames();
    var cut := Cut(c, '/');
    if cut.Some? && cut.value.1 == "" { assert c == cut.value.0 + "/"; }
  }

  lemma {:induction false} CanonWritten(c: string, header: Canon, body: Canon)
    requires Names(c, header, body)
    ensures CanonPair(c) == Some((header, body))
  {
    var h, b := CanonName(header), CanonName(body);
    CanonNames();
    if c == h + "/" && body == Simple {
      assert c == h + "/" + "";
      CutAt(h, "", '/');
    } else if c == h + "/" + b {
      CutAt(h, b, '/');
    } else {
      assert Cut(c, '/').None?;
    }
  }

  lemma {:induction false} CanonNames()
    ensures forall s :: CanonOf(s).Some? ==> CanonName(CanonOf(s).value) == s
    ensures forall c :: CanonOf(CanonName(c)) == Some(c) && Without(CanonName(c), '/') && CanonName(c) != ""
  {}

  // The domain of an agent is d or one below it.
  ghost predicate Below(agent: string, d: string) {
    exists user, domain :: agent == user + "@" + domain && Without(user, '@') && (domain == d || DotEnds(domain, d))
  }

  ghost predicate DotEnds(domain: string, d: string) { exists sub :: domain == sub + "." + d }

  lemma {:induction false} DotEndsMeaning(domain: string, d: string)
    ensures HasSuffix(domain, "." + d) <==> DotEnds(domain, d)
  {
    if HasSuffix(domain, "." + d) {
      var n := |domain| - |"." + d|;
      assert domain == domain[..n] + ("." + d) == domain[..n] + "." + d;
    }
    if sub :| domain == sub + "." + d {
      assert domain == sub + ("." + d);
    }
  }

  lemma {:induction false} BelowMeaning(agent: string, d: string)
    requires d != ""
    ensures Below(agent, d) <==> DomainOfI(agent) == d || HasSuffix(DomainOfI(agent), "." + d)
  {
    var domain := DomainOfI(agent);
    DotEndsMeaning(domain, d);
    if Below(agent, d) {
      var user, dom :| agent == user + "@" + dom && Without(user, '@') && (dom == d || DotEnds(dom, d));
      CutAt(user, dom, '@');
    }
    if Cut(agent, '@').None? {
      assert |"." + d| > |domain|;
    } else if domain == d || DotEnds(domain, d) {
      var user := Cut(agent, '@').value.0;
      assert agent == user + "@" + domain;
    }
  }

  ghost predicate IsTime(s: string) { exists n :: Time(s, n) }

  // What the tags of an acceptable signature are, and what they say.
  ghost predicate Sound(tags: TagMap, sig: Signature) {
    && Get(tags, "v") == "1"
    && Get(tags, "a") == (if sig.keyType == Rsa then "rsa-sha256" else "ed25519-sha256")
    && Decode(Remove(Get(tags, "b"), IsBlank)) == Ok(sig.b) && sig.b != []
    && Decode(Remove(Get(tags, "bh"), IsBlank)) == Ok(sig.bh) && sig.bh != []
    && Names(Get(tags, "c"), sig.cH, sig.cB)
    && Get(tags, "d") == sig.d != "" && Get(tags, "s") == sig.s != "" && Get(tags, "i") == sig.i
    && Get(tags, "h") != "" && IsList(sig.h, Get(tags, "h"))
    && (exists k :: 0 <= k < |sig.h| && ToLower(sig.h[k]) == "from")
    && SoundRest(tags, sig)
  }

  ghost predicate SoundRest(tags: TagMap, sig: Signature) {
    && (if Get(tags, "l") == "" then sig.l == 0 else sig.l < 0x1_0000_0000_0000_0000 && Numeral(Get(tags, "l"), sig.l))
    && (Get(tags, "q") == "" || exists items :: IsList(items, Get(tags, "q")) && "dns/txt" in items)
    && (Get(tags, "t") == "" || IsTime(Get(tags, "t")))
    && (Get(tags, "x") == "" || IsTime(Get(tags, "x")))
    && (sig.i == "" || Below(sig.i, sig.d))
  }

  lemma {:induction false} AlgorithmMeaning(a: string, kt: KeyType)
    ensures a == (if kt == Rsa then "rsa-sha256" else "ed25519-sha256") <==>
      Cut(a, '-').Some? && KeyTypeOf(Cut(a, '-').value.0) == Some(kt) && Cut(a, '-').value.1 == "sha256"
  {
    if kt == Rsa { TwoParts(a, "rsa", "sha256"); } else { TwoParts(a, "ed25519", "sha256"); }
    assert "rsa" + "-" + "sha256" == "rsa-sha256" && "ed25519" + "-" + "sha256" == "ed25519-sha256";
  }

  lemma {:induction false} TwoParts(a: string, k: string, h: string)
    requires Without(k, '-')
    ensures a == k + "-" + h <==> Cut(a, '-') == Some((k, h))
  {
    CutAt(k, h, '-');
  }

  lemma {:induction false} FromMeaning(h: seq<string>)
    ensures (exists k :: 0 <= k < |h| && EqualFold(h[k], "from")) <==>
            (exists k :: 0 <= k < |h| && ToLower(h[k]) == "from")
  {
    assert ToLower("from") == "from";
    forall k | 0 <= k < |h| ensures EqualFold(h[k], "from") <==> ToLower(h[k]) == "from" {}
  }

  lemma {:induction false} QueryMeaning(q: string)
    ensures (List(q) == [] || "dns/txt" in List(q)) <==>
      q == "" || exists items :: IsList(items, q) && "dns/txt" in items
  {
    if q != "" {
      ListMeaning(q, List(q));
      if items :| IsList(items, q) && "dns/txt" in items { ListMeaning(q, items); }
    }
  }

  lemma {:induction false} TimeTagMeaning(s: string)
    ensures ParseTime(s).Some? <==> IsTime(s)
  {
    if ParseTime(s).Some? { TimeMeaning(s, ParseTime(s).value); }
    if n :| Time(s, n) { TimeMeaning(s, n); }
  }

  lemma {:induction false} RestMeaning(tags: TagMap, sig: Signature)
    requires sig.d != ""
    ensures SoundRest(tags, sig) <==>
      && (if Get(tags, "l") == "" then sig.l == 0 else ParseUint(Get(tags, "l")) == Some(sig.l))
      && (List(Get(tags, "q")) == [] || "dns/txt" in List(Get(tags, "q")))
      && (Get(tags, "t") == "" || ParseTime(Get(tags, "t")).Some?)
      && (Get(tags, "x") == "" || ParseTime(Get(tags, "x")).Some?)
      && (sig.i == "" || DomainOfI(sig.i) == sig.d || HasSuffix(DomainOfI(sig.i), "." + sig.d))
  {
    UintMeaning(Get(tags, "l"), sig.l);
    QueryMeaning(Get(tags, "q"));
    TimeTagMeaning(Get(tags, "t"));
    TimeTagMeaning(Get(tags, "x"));
    BelowMeaning(sig.i, sig.d);
  }

  lemma {:induction false} RequiredMeaning(a: string, sig: Signature)
    ensures Required(a, sig).None? <==>
      && a != "" && sig.b != [] && sig.bh != [] && sig.d != "" && sig.h != [] && sig.s != ""
      && (exists k :: 0 <= k < |sig.h| && ToLower(sig.h[k]) == "from")
      && (sig.i == "" || DomainOfI(sig.i) == sig.d || HasSuffix(DomainOfI(sig.i), "." + sig.d))
  {
    FromMeaning(sig.h);
  }

  // The tags as the code decodes them, before it checks what is required.
  predicate Decoded(tags: TagMap, sig: Signature) {
    && Decode(Remove(Get(tags, "b"), IsBlank)) == Ok(sig.b)
    && Decode(Remove(Get(tags, "bh"), IsBlank)) == Ok(sig.bh)
    && CanonPair(Get(tags, "c")) == Some((sig.cH, sig.cB))
    && sig.d == Get(tags, "d") && sig.h == List(Get(tags, "h")) && sig.i == Get(tags, "i") && sig.s == Get(tags, "s")
    && (if Get(tags, "l") == "" then sig.l == 0 else ParseUint(Get(tags, "l")) == Some(sig.l))
    && (List(Get(tags, "q")) == [] || "dns/txt" in List(Get(tags, "q")))
    && (Get(tags, "t") == "" || ParseTime(Get(tags, "t")).Some?)
    && (Get(tags, "x") == "" || ParseTime(Get(tags, "x")).Some?)
  }

  lemma {:induction false} DecodedMeaning(tags: TagMap, kt: KeyType, sig: Signature)
    ensures SignatureBody(tags, kt) == Ok(sig) <==>
      sig.keyType == kt && Decoded(tags, sig) && Required(Get(tags, "a"), sig).None?
  {}

  lemma {:induction false} SoundTags(tags: TagMap, sig: Signature)
    requires Get(tags, "a") == if sig.keyType == Rsa then "rsa-sha256" else "ed25519-sha256"
    ensures Sound(tags, sig) <==> Get(tags, "v") == "1" && Decoded(tags, sig) && Required(Get(tags, "a"), sig).None?
  {
    RequiredMeaning(Get(tags, "a"), sig);
    CanonMeaning(Get(tags, "c"), sig.cH, sig.cB);
    if Get(tags, "h") != "" { ListMeaning(Get(tags, "h"), sig.h); }
    if sig.d != "" { RestMeaning(tags, sig); }
  }

  lemma {:induction false} SoundMeaning(tags: TagMap, sig: Signature)
    ensures SignatureOf(tags) == Ok(sig) <==> Sound(tags, sig)
  {
    AlgorithmMeaning(Get(tags, "a"), sig.keyType);
    var cut := Cut(Get(tags, "a"), '-');
    if cut.Some? && KeyTypeOf(cut.value.0).Some? { DecodedMeaning(tags, KeyTypeOf(cut.value.0).value, sig); }
    if Get(tags, "a") == if sig.keyType == Rsa then "rsa-sha256" else "ed25519-sha256" { SoundTags(tags, sig); }
  }

  // A signature field is accepted, and read like this, if and only if it is a list of tags that are sound.
  lemma {:induction false} SignatureMeaning(value: string, sig: Signature)
    ensures ParseSignature(value) == Ok(sig) <==>
      exists tags :: IsTagList(value, tags) && Sound(tags, sig)
  {
    if ParseSignature(value) == Ok(sig) {
      var tags := ParseTags(value).value;
      TagListMeaning(value, tags);
      SoundMeaning(tags, sig);
    }
    if tags :| IsTagList(value, tags) && Sound(tags, sig) {
      TagListMeaning(value, tags);
      SoundMeaning(tags, sig);
    }
  }
}
