/** internal/dkim/header.go: tag=value lists (section 3.2 of RFC 6376) and the DKIM-Signature field. */
module Tags {
  import opened Text
  import opened Base64
  import opened Canonical

  type TagMap = map<string, string>
  datatype TagError = MissingEquals | MissingName | DuplicateTag

  // ---------------------------------------------------------------- tag lists

  function AddTag(tags: TagMap, piece: string): Result<TagMap, TagError> {
    match Cut(piece, '=')
    case None => Err(MissingEquals)
    case Some(tv) =>
      var t, v := TrimSpace(tv.0), TrimSpace(tv.1);
      if t == "" then Err(MissingName)
      else if t in tags then Err(DuplicateTag)
      else Ok(tags[t := v])
  }

  function TagsOf(pieces: seq<string>): Result<TagMap, TagError> {
    if pieces == [] then Ok(map[])
    else
      match TagsOf(pieces[..|pieces| - 1])
      case Err(e) => Err(e)
      case Ok(tags) => AddTag(tags, pieces[|pieces| - 1])
  }

  function DropFinalSemicolon(s: string): string {
    if s != "" && s[|s| - 1] == ';' then s[..|s| - 1] else s
  }

  function ParseTags(s: string): Result<TagMap, TagError> {
    TagsOf(SplitChar(DropFinalSemicolon(TrimSpace(s)), ';'))
  }

  lemma {:induction false} TagsErr(pieces: seq<string>, i: nat)
    requires i <= |pieces| && TagsOf(pieces[..i]).Err?
    ensures TagsOf(pieces) == TagsOf(pieces[..i])
  {
    if i < |pieces| {
      assert pieces[..|pieces| - 1][..i] == pieces[..i];
      TagsErr(pieces[..|pieces| - 1], i);
    } else {
      assert pieces[..i] == pieces;
    }
  }

  lemma {:induction false} TagsStep(pieces: seq<string>, i: nat)
    requires i < |pieces| && TagsOf(pieces[..i]).Ok?
    ensures TagsOf(pieces[..i + 1]) == AddTag(TagsOf(pieces[..i]).value, pieces[i])
  {
    assert pieces[..i + 1][..i] == pieces[..i];
  }

  // parseTags: the loop that fills the map.
  method ParseTagList(s: string) returns (r: Result<TagMap, TagError>)
    ensures r == ParseTags(s)
  {
    var pieces := SplitChar(DropFinalSemicolon(TrimSpace(s)), ';');
    var tags: TagMap := map[];
    for i := 0 to |pieces|
      invariant TagsOf(pieces[..i]) == Ok(tags)
    {
      TagsStep(pieces, i);
      var added := AddTag(tags, pieces[i]);
      if added.Err? {
        TagsErr(pieces, i + 1);
        return added;
      }
      tags := added.value;
    }
    assert pieces[..|pieces|] == pieces;
    return Ok(tags);
  }

  // One tag as written: white space, the name, "=", and the value.
  datatype Chunk = Chunk(pad: string, name: string, value: string) {
    function Text(): string { pad + name + "=" + value }

    predicate Valid() {
      && (forall i :: 0 <= i < |pad| ==> IsSpace(pad[i]))
      && name != "" && Free(name, IsSpace) && Without(name, '=') && Without(name, ';')
      && Without(value, ';')
    }
  }

  predicate Chunks(cs: seq<Chunk>) {
    && (forall i :: 0 <= i < |cs| ==> cs[i].Valid())
    && (forall i, j :: 0 <= i < j < |cs| ==> cs[i].name != cs[j].name)
  }

  function Texts(cs: seq<Chunk>): (r: seq<string>)
    ensures |r| == |cs| && forall i :: 0 <= i < |cs| ==> r[i] == cs[i].Text()
  {
    seq(|cs|, i requires 0 <= i < |cs| => cs[i].Text())
  }

  function Meaning(cs: seq<Chunk>): TagMap {
    if cs == [] then map[]
    else Meaning(cs[..|cs| - 1])[cs[|cs| - 1].name := TrimSpace(cs[|cs| - 1].value)]
  }

  lemma {:induction false} MeaningKeys(cs: seq<Chunk>)
    ensures forall k :: k in Meaning(cs) ==> exists i :: 0 <= i < |cs| && cs[i].name == k
  {
    if cs != [] {
      var n := |cs| - 1;
      MeaningKeys(cs[..n]);
      forall k | k in Meaning(cs) ensures exists i :: 0 <= i < |cs| && cs[i].name == k {
        if k != cs[n].name {
          assert k in Meaning(cs[..n]);
          var i :| 0 <= i < |cs[..n]| && cs[..n][i].name == k;
          assert cs[i].name == k;
        }
      }
    }
  }

  lemma {:induction false} MeaningAt(cs: seq<Chunk>, i: nat)
    requires Chunks(cs) && i < |cs|
    ensures cs[i].name in Meaning(cs) && Meaning(cs)[cs[i].name] == TrimSpace(cs[i].value)
  {
    var n := |cs| - 1;
    if i < n {
      MeaningAt(cs[..n], i);
    }
  }

  lemma {:induction false} TrimRightVisible(s: string)
    requires s == "" || !IsSpace(s[|s| - 1])
    ensures TrimRight(s, IsSpace) == s
  {}

  lemma {:induction false} TrimName(pad: string, name: string)
    requires (forall i :: 0 <= i < |pad| ==> IsSpace(pad[i])) && name != "" && Free(name, IsSpace)
    ensures TrimSpace(pad + name) == name
  {
    TrimLeftPad(pad, name, IsSpace);
    TrimRightVisible(name);
  }

  lemma {:induction false} AddChunk(tags: TagMap, c: Chunk)
    requires c.Valid() && c.name !in tags
    ensures AddTag(tags, c.Text()) == Ok(tags[c.name := TrimSpace(c.value)])
  {
    assert Without(c.pad + c.name, '=');
    CutAt(c.pad + c.name, c.value, '=');
    TrimName(c.pad, c.name);
  }

  lemma {:induction false} LastIsNew(cs: seq<Chunk>)
    requires Chunks(cs) && cs != []
    ensures Chunks(cs[..|cs| - 1]) && cs[|cs| - 1].name !in Meaning(cs[..|cs| - 1])
  {
    var n := |cs| - 1;
    MeaningKeys(cs[..n]);
    assert forall i :: 0 <= i < n ==> cs[..n][i].name == cs[i].name && cs[i].name != cs[n].name;
  }

  lemma {:induction false} TagsOfTexts(cs: seq<Chunk>)
    requires Chunks(cs)
    ensures TagsOf(Texts(cs)) == Ok(Meaning(cs))
  {
    if cs != [] {
      var n := |cs| - 1;
      LastIsNew(cs);
      TagsOfTexts(cs[..n]);
      assert Texts(cs)[..n] == Texts(cs[..n]);
      AddChunk(Meaning(cs[..n]), cs[n]);
    }
  }

  // What a printed tag list reads back as: every tag once, its value trimmed.
  lemma {:induction false} ParsePrinted(lead: string, cs: seq<Chunk>)
    requires Chunks(cs) && cs != [] && cs[0].pad == ""
    requires forall i :: 0 <= i < |lead| ==> IsSpace(lead[i])
    ensures ParseTags(lead + JoinChar(Texts(cs), ';') + ";") == Ok(Meaning(cs))
  {
    var x := JoinChar(Texts(cs), ';');
    JoinCharStart(Texts(cs), ';');
    Assoc(lead, x, ";");
    TrimLeftPad(lead, x + ";", IsSpace);
    assert cs[0].Text()[0] == cs[0].name[0];
    assert TrimLeft(x + ";", IsSpace) == x + ";";
    TrimRightVisible(x + ";");
    assert DropFinalSemicolon(x + ";") == x;
    forall k | 0 <= k < |cs| ensures Without(Texts(cs)[k], ';') { assert cs[k].Valid(); }
    SplitCharJoin(Texts(cs), ';');
    TagsOfTexts(cs);
  }

  lemma {:induction false} JoinCharStart(ls: seq<string>, c: char)
    requires ls != [] && ls[0] != ""
    ensures JoinChar(ls, c) != "" && JoinChar(ls, c)[0] == ls[0][0]
  {}

  // ---------------------------------------------------------------- numbers

  predicate IsDigit(c: char) { '0' <= c <= '9' }

  function Decimal(n: nat): (s: string)
    ensures s != "" && forall i :: 0 <= i < |s| ==> IsDigit(s[i])
  {
    if n < 10 then [(48 + n) as char] else Decimal(n / 10) + [(48 + n % 10) as char]
  }

  function Digits(s: string): Option<nat> {
    if s == "" then Some(0)
    else if !IsDigit(s[|s| - 1]) then None
    else
      match Digits(s[..|s| - 1])
      case None => None
      case Some(n) => Some(n * 10 + (s[|s| - 1] as int - 48))
  }

  lemma {:induction false} DigitsOfDecimal(n: nat)
    ensures Digits(Decimal(n)) == Some(n)
  {
    var s := Decimal(n);
    if n < 10 {
      assert s[..0] == "";
    } else {
      assert s[..|s| - 1] == Decimal(n / 10);
      DigitsOfDecimal(n / 10);
    }
  }

  // strconv.ParseUint(s, 10, 64)
  function ParseUint(s: string): Option<nat> {
    if s == "" then None
    else
      match Digits(s)
      case Some(n) => if n < 0x1_0000_0000_0000_0000 then Some(n) else None
      case None => None
  }

  // unixStrToTime: a 64-bit signed integer that is not negative.
  function ParseTime(s: string): Option<nat> {
    var t := if s != "" && (s[0] == '+' || s[0] == '-') then s[1..] else s;
    match ParseUint(t)
    case Some(n) =>
      if s[0] == '-' then (if n == 0 then Some(0) else None)
      else if n < 0x8000_0000_0000_0000 then Some(n) else None
    case None => None
  }

  lemma {:induction false} TimeRoundTrip(n: nat)
    requires n < 0x8000_0000_0000_0000
    ensures ParseTime(Decimal(n)) == Some(n)
  {
    DigitsOfDecimal(n);
    assert IsDigit(Decimal(n)[0]);
  }

  // ---------------------------------------------------------------- the signature field

  datatype KeyType = Rsa | Ed25519

  datatype Signature = Signature(
    keyType: KeyType, b: seq<Octet>, bh: seq<Octet>, cH: Canon, cB: Canon,
    d: string, h: seq<string>, i: string, l: nat, s: string)

  datatype SigError =
    | BadTags(tagError: TagError) | InvalidVersion | BadATag | UnsupportedKeyType | UnsupportedHash
    | BadB | BadBh | BadCanonicalization | BadL | NoDnsTxt | BadT | BadX
    | MissingTag(tag: string) | FromNotSigned | NotASubdomain

  function Get(tags: TagMap, k: string): string { if k in tags then tags[k] else "" }

  function CanonOf(s: string): Option<Canon> {
    if s == "simple" then Some(Simple) else if s == "relaxed" then Some(Relaxed) else None
  }

  // "header/body" or "header"; the empty string means simple/simple.
  function CanonPair(s: string): Option<(Canon, Canon)> {
    if s == "" then Some((Simple, Simple))
    else
      var hb := match Cut(s, '/') case None => (s, "") case Some(p) => p;
      var bs := if hb.1 == "" then "simple" else hb.1;
      if CanonOf(hb.0).Some? && CanonOf(bs).Some? then Some((CanonOf(hb.0).value, CanonOf(bs).value)) else None
  }

  function KeyTypeOf(s: string): Option<KeyType> {
    if s == "rsa" then Some(Rsa) else if s == "ed25519" then Some(Ed25519) else None
  }

  function List(s: string): seq<string> { if s == "" then [] else SplitChar(Remove(s, IsBlank), ':') }

  predicate HasSuffix(s: string, t: string) { |t| <= |s| && s[|s| - |t|..] == t }

  function DomainOfI(i: string): string { match Cut(i, '@') case None => "" case Some(p) => p.1 }

  // checkRequiredTags
  function Required(a: string, sig: Signature): Option<SigError> {
    if a == "" then Some(MissingTag("a"))
    else if sig.b == [] then Some(MissingTag("b"))
    else if sig.bh == [] then Some(MissingTag("bh"))
    else if sig.d == "" then Some(MissingTag("d"))
    else if sig.h == [] then Some(MissingTag("h"))
    else if sig.s == "" then Some(MissingTag("s"))
    else if !exists k :: 0 <= k < |sig.h| && EqualFold(sig.h[k], "from") then Some(FromNotSigned)
    else if sig.i != "" && DomainOfI(sig.i) != sig.d && !HasSuffix(DomainOfI(sig.i), "." + sig.d)
      then Some(NotASubdomain)
    else None
  }

  function SignatureOf(tags: TagMap): Result<Signature, SigError> {
    if Get(tags, "v") != "1" then Err(InvalidVersion)
    else match Cut(Get(tags, "a"), '-')
      case None => Err(BadATag)
      case Some(a) =>
        var kt := KeyTypeOf(a.0);
        if kt.None? then Err(UnsupportedKeyType)
        else if a.1 != "sha256" then Err(UnsupportedHash)
        else SignatureBody(tags, kt.value)
  }

  function SignatureBody(tags: TagMap, kt: KeyType): Result<Signature, SigError> {
    var b, bh := Decode(Remove(Get(tags, "b"), IsBlank)), Decode(Remove(Get(tags, "bh"), IsBlank));
    var c := CanonPair(Get(tags, "c"));
    var l := if Get(tags, "l") == "" then Some(0) else ParseUint(Get(tags, "l"));
    var q := List(Get(tags, "q"));
    if b.Err? then Err(BadB)
    else if bh.Err? then Err(BadBh)
    else if c.None? then Err(BadCanonicalization)
    else if l.None? then Err(BadL)
    else if q != [] && "dns/txt" !in q then Err(NoDnsTxt)
    else if Get(tags, "t") != "" && ParseTime(Get(tags, "t")).None? then Err(BadT)
    else if Get(tags, "x") != "" && ParseTime(Get(tags, "x")).None? then Err(BadX)
    else
      var sig := Signature(kt, b.value, bh.value, c.value.0, c.value.1, Get(tags, "d"), List(Get(tags, "h")),
                           Get(tags, "i"), l.value, Get(tags, "s"));
      match Required(Get(tags, "a"), sig)
      case Some(e) => Err(e)
      case None => Ok(sig)
  }

  // dkimSignatureFromHeader
  function ParseSignature(value: string): Result<Signature, SigError> {
    match ParseTags(value)
    case Err(e) => Err(BadTags(e))
    case Ok(tags) => SignatureOf(tags)
  }
}
