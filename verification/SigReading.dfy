/** Reading a signature that Sign wrote: folding, printing and relaxing are undone. */
module SigReading {
  import opened Text
  import opened Base64
  import opened Canonical
  import opened Tags
  import opened Signing
  import opened SigText
  import opened BTag

  const FOLD: string := "\r\n\t"

  // A domain or selector as it may stand in a tag.
  predicate TagSafe(s: string) { s != "" && Free(s, IsSpace) && Without(s, ';') && Without(s, '=') }

  // ---------------------------------------------------------------- the folded text, tag by tag

  function FirstTags(algo: string): seq<Chunk> {
    [Chunk("", "v", "1"), Chunk(" ", "a", algo), Chunk(" ", "c", "relaxed/relaxed")]
  }
  function KeyTags(d: string, s: string, now: nat): seq<Chunk> {
    [Chunk(FOLD, "d", d), Chunk(" ", "s", s), Chunk(" ", "t", Decimal(now))]
  }
  function NameTags(names: seq<string>): seq<Chunk> { [Chunk(FOLD, "h", Fold(FormatNames(names)))] }
  function BodyTags(bh: seq<Octet>): seq<Chunk> { [Chunk(FOLD, "bh", Encode(bh))] }

  function HeadTags(algo: string, d: string, s: string, now: nat, names: seq<string>, bh: seq<Octet>): seq<Chunk> {
    FirstTags(algo) + KeyTags(d, s, now) + NameTags(names) + BodyTags(bh)
  }

  lemma {:induction false} Glue(p: string, m: string, n: string, mn: string, v: string)
    requires m + n == mn
    ensures (p + m) + (n + v + ";") == (p + mn + v) + ";"
  {
    Assoc(p, m, n + v + ";");
    Assoc(m, n + v, ";");
    Assoc(m, n, v);
    Assoc(p, mn + v, ";");
    Assoc(p, mn, v);
  }

  lemma {:induction false} PrintedThree(x: Chunk, y: Chunk, z: Chunk)
    ensures Printed([x, y, z]) == (x.Text() + ";") + (y.Text() + ";") + (z.Text() + ";")
  {
    assert [x, y, z] == [x] + [y] + [z];
    PrintedAppend([x] + [y], [z]);
    PrintedAppend([x], [y]);
    PrintedOne(x);
    PrintedOne(y);
    PrintedOne(z);
  }

  lemma {:induction false} FirstTexts(algo: string)
    ensures Chunk("", "v", "1").Text() == "v=1"
    ensures Chunk(" ", "a", algo).Text() == " a=" + algo
    ensures Chunk(" ", "c", "relaxed/relaxed").Text() == " c=" + "relaxed/relaxed"
  {
    assert "" + "v" + "=" + "1" == "v=1";
    assert " " + "a" + "=" == " a=";
    assert " " + "c" + "=" == " c=";
  }

  lemma {:induction false} GlueFirst(algo: string)
    ensures ("v=1" + ";") + (" a=" + algo + ";") + (" c=" + "relaxed/relaxed" + ";")
         == "v=1; a=" + algo + "; c=relaxed/relaxed;"
  {
    assert ";" + " a=" == "; a=" && ";" + " c=" == "; c=";
    Glue("v=1", ";", " a=", "; a=", algo);
    assert "v=1" + "; a=" == "v=1; a=";
    var p := "v=1; a=" + algo;
    Glue(p, ";", " c=", "; c=", "relaxed/relaxed");
    Assoc(p, "; c=", "relaxed/relaxed");
    assert "; c=" + "relaxed/relaxed" == "; c=relaxed/relaxed";
    Assoc(p, "; c=relaxed/relaxed", ";");
    assert "; c=relaxed/relaxed" + ";" == "; c=relaxed/relaxed;";
  }

  lemma {:induction false} PrintedFirst(algo: string)
    ensures Printed(FirstTags(algo)) == "v=1; a=" + algo + "; c=relaxed/relaxed;"
  {
    PrintedThree(Chunk("", "v", "1"), Chunk(" ", "a", algo), Chunk(" ", "c", "relaxed/relaxed"));
    FirstTexts(algo);
    GlueFirst(algo);
  }

  lemma {:induction false} RegroupKeys(f: string, a: string, b: string, c: string, d: string, e: string, g: string)
    ensures (f + a + b + c + d + e) + g == f + (a + b + c + d + e + g)
  {
    Assoc(f, a, b);
    Assoc(f, a + b, c);
    Assoc(f, a + b + c, d);
    Assoc(f, a + b + c + d, e);
    Assoc(f, a + b + c + d + e, g);
  }

  lemma {:induction false} PrintedKeys(d: string, s: string, now: nat)
    ensures Printed(KeyTags(d, s, now)) == FOLD + ("d=" + d + "; s=" + s + "; t=" + Decimal(now) + ";")
  {
    var x, y, z := Chunk(FOLD, "d", d), Chunk(" ", "s", s), Chunk(" ", "t", Decimal(now));
    PrintedThree(x, y, z);
    assert x.Text() == FOLD + ("d=" + d) by {
      assert FOLD + "d" + "=" == FOLD + "d=";
      Assoc(FOLD, "d=", d);
    }
    assert y.Text() == " s=" + s by { assert " " + "s" + "=" == " s="; }
    assert z.Text() == " t=" + Decimal(now) by { assert " " + "t" + "=" == " t="; }
    var p := FOLD + ("d=" + d);
    Glue(p, ";", " s=", "; s=", s);
    Glue(p + "; s=" + s, ";", " t=", "; t=", Decimal(now));
    RegroupKeys(FOLD, "d=" + d, "; s=", s, "; t=", Decimal(now), ";");
  }

  lemma {:induction false} PrintedNames(names: seq<string>)
    ensures Printed(NameTags(names)) == FOLD + ("h=" + Fold(FormatNames(names)) + ";")
  {
    PrintedOne(Chunk(FOLD, "h", Fold(FormatNames(names))));
  }

  lemma {:induction false} PrintedBody(bh: seq<Octet>)
    ensures Printed(BodyTags(bh)) == FOLD + ("bh=" + Encode(bh) + ";")
  {
    PrintedOne(Chunk(FOLD, "bh", Encode(bh)));
  }

  lemma {:induction false} PlainFold(l: string)
    requires Without(l, '\n')
    ensures Fold(l + CRLF) == l + FOLD
  {
    assert l + CRLF == l + CRLF + "";
    FoldLine(l, "");
    assert l + CRLF + "\t" + "" == l + FOLD;
  }

  lemma {:induction false} NamesFold(names: seq<string>)
    requires PlainNames(names)
    ensures Fold("h=" + FormatNames(names) + ";" + CRLF) == ("h=" + Fold(FormatNames(names)) + ";") + FOLD
  {
    var f := FormatNames(names);
    TrimSpaceStart(ToLower(Wrapped(names, true, "")));
    var l := "h=" + f + ";";
    FoldAppend(l, CRLF);
    assert CRLF == "" + CRLF;
    PlainFold("");
    assert "" + FOLD == FOLD;
    FoldAppend("h=" + f, ";");
    FoldAppend("h=", f);
    FoldPlain("h=");
    FoldPlain(";");
  }

  lemma {:induction false} Regroup(a: string, b: string, c: string, d: string, x: string, e: string)
    ensures (a + x) + (b + x) + (c + x) + (d + x) + e == a + (x + b) + (x + c) + (x + d) + (x + e)
  {
    Assoc(a, x, b + x);
    Assoc(x, b, x);
    Assoc(a, x + b, x);
    Assoc(a + (x + b), x, c + x);
    Assoc(x, c, x);
    Assoc(a + (x + b), x + c, x);
    Assoc(a + (x + b) + (x + c), x, d + x);
    Assoc(x, d, x);
    Assoc(a + (x + b) + (x + c), x + d, x);
    Assoc(a + (x + b) + (x + c) + (x + d), x, e);
  }

  lemma {:induction false} FoldFive(a: string, b: string, c: string, d: string, e: string)
    requires b != "" && b[0] != '\n' && c != "" && c[0] != '\n' && d != "" && d[0] != '\n' && e != "" && e[0] != '\n'
    ensures Fold(a + b + c + d + e) == Fold(a) + Fold(b) + Fold(c) + Fold(d) + Fold(e)
  {
    FoldAppend(a + b + c + d, e);
    FoldAppend(a + b + c, d);
    FoldAppend(a + b, c);
    FoldAppend(a, b);
  }

  lemma {:induction false} DecimalNoBreak(n: nat)
    ensures Without(Decimal(n), '\n') && Without(Decimal(n), ';') && Without(Decimal(n), '=') && Free(Decimal(n), IsSpace)
  {
    assert forall i :: 0 <= i < |Decimal(n)| ==> IsDigit(Decimal(n)[i]);
  }

  lemma {:induction false} HeadPrinted(algo: string, d: string, s: string, now: nat, names: seq<string>, bh: seq<Octet>)
    ensures Printed(HeadTags(algo, d, s, now, names, bh))
         == Printed(FirstTags(algo)) + Printed(KeyTags(d, s, now)) + Printed(NameTags(names)) + Printed(BodyTags(bh))
  {
    PrintedAppend(FirstTags(algo) + KeyTags(d, s, now) + NameTags(names), BodyTags(bh));
    PrintedAppend(FirstTags(algo) + KeyTags(d, s, now), NameTags(names));
    PrintedAppend(FirstTags(algo), KeyTags(d, s, now));
  }

  lemma {:induction false} FoldedLines(a: string, b: string, names: seq<string>, e: string)
    requires Without(a, '\n') && Without(b, '\n') && Without(e, '\n') && b != "" && e != "" && PlainNames(names)
    ensures Fold((a + CRLF) + (b + CRLF) + ("h=" + FormatNames(names) + ";" + CRLF) + (e + CRLF) + "b=")
         == a + (FOLD + b) + (FOLD + ("h=" + Fold(FormatNames(names)) + ";")) + (FOLD + e) + (FOLD + "b=")
  {
    FoldFive(a + CRLF, b + CRLF, "h=" + FormatNames(names) + ";" + CRLF, e + CRLF, "b=");
    PlainFold(a);
    PlainFold(b);
    NamesFold(names);
    PlainFold(e);
    FoldPlain("b=");
    Regroup(a, b, "h=" + Fold(FormatNames(names)) + ";", e, FOLD, "b=");
  }

  lemma {:induction false} NoBreaks(kt: KeyType, d: string, s: string, now: nat, bh: seq<Octet>)
    requires TagSafe(d) && TagSafe(s)
    ensures Without("v=1; a=" + AlgoStr(kt) + "; c=relaxed/relaxed;", '\n')
    ensures Without("d=" + d + "; s=" + s + "; t=" + Decimal(now) + ";", '\n')
    ensures Without("bh=" + Encode(bh) + ";", '\n')
  {
    DecimalNoBreak(now);
    EncodeSafe(bh);
    assert Without(AlgoStr(kt), '\n');
    assert Without(d, '\n') && Without(s, '\n');
    assert forall i :: 0 <= i < |Encode(bh)| ==> !IsBlank(Encode(bh)[i]);
  }

  lemma {:induction false} FoldedHead(kt: KeyType, d: string, s: string, now: nat, names: seq<string>, bh: seq<Octet>)
    requires TagSafe(d) && TagSafe(s) && PlainNames(names)
    ensures Fold(SigHead(AlgoStr(kt), d, s, now, names, bh))
         == Printed(HeadTags(AlgoStr(kt), d, s, now, names, bh)) + (FOLD + "b=")
  {
    var algo := AlgoStr(kt);
    var a := "v=1; a=" + algo + "; c=relaxed/relaxed;";
    var b := "d=" + d + "; s=" + s + "; t=" + Decimal(now) + ";";
    var e := "bh=" + Encode(bh) + ";";
    NoBreaks(kt, d, s, now, bh);
    FoldedLines(a, b, names, e);
    PrintedFirst(algo);
    PrintedKeys(d, s, now);
    PrintedNames(names);
    PrintedBody(bh);
    HeadPrinted(algo, d, s, now, names, bh);
  }

  // The wrapped signature, folded.
  function SigBlock(sig: seq<Octet>): string { Fold(Broken(Encode(sig))) }

  lemma {:induction false} SigBlockFacts(sig: seq<Octet>)
    requires sig != []
    ensures SigBlock(sig) != "" && !IsBlank(SigBlock(sig)[0]) && Without(SigBlock(sig), ';')
  {
    var e := Encode(sig);
    EncodeSafe(sig);
    assert !IsBlank(e[0]);
    BrokenFree(e, c => c == ';');
    FoldFree(Broken(e), c => c == ';');
    var w := Broken(e);
    assert !StartsCrlf(w);
    assert Fold(w)[0] == w[0];
  }

  lemma {:induction false} FoldedSignature(head: string, sig: seq<Octet>)
    requires sig != []
    ensures Fold(head + Broken(Encode(sig)) + ";") == Fold(head) + (SigBlock(sig) + ";")
  {
    var w := Broken(Encode(sig));
    EncodeSafe(sig);
    BrokenFree(Encode(sig), c => c == ';');
    assert w[0] != '\n' by { assert !IsBlank(Encode(sig)[0]); }
    FoldAppend(head + w, ";");
    FoldAppend(head, w);
    FoldPlain(";");
    Assoc(Fold(head), Fold(w), ";");
  }

  function AllTags(head: seq<Chunk>, sig: seq<Octet>): seq<Chunk> { head + [Chunk(FOLD, "b", SigBlock(sig))] }

  lemma {:induction false} PrintedAll(head: seq<Chunk>, sig: seq<Octet>)
    ensures Printed(AllTags(head, sig)) == Printed(head) + (FOLD + "b=") + (SigBlock(sig) + ";")
  {
    var c := Chunk(FOLD, "b", SigBlock(sig));
    PrintedAppend(head, [c]);
    PrintedOne(c);
    assert c.Text() + ";" == (FOLD + "b=") + (SigBlock(sig) + ";") by { assert FOLD + "b" + "=" == FOLD + "b="; }
    Assoc(Printed(head), FOLD + "b=", SigBlock(sig) + ";");
  }

  // ---------------------------------------------------------------- reading the tags

  function TagNo(s: string): nat {
    if s == "v" then 0 else if s == "a" then 1 else if s == "c" then 2 else if s == "d" then 3
    else if s == "s" then 4 else if s == "t" then 5 else if s == "h" then 6 else if s == "bh" then 7
    else if s == "b" then 8 else 9
  }

  lemma {:induction false} TrimPlain(s: string)
    requires Free(s, IsSpace)
    ensures TrimSpace(s) == s
  {
    TrimRightVisible(s);
  }

  const NAMES: seq<string> := ["v", "a", "c", "d", "s", "t", "h", "bh", "b"]
  const PADS: seq<string> := ["", " ", " ", FOLD, " ", " ", FOLD, FOLD, FOLD]

  function Nine(vs: seq<string>): (cs: seq<Chunk>)
    requires |vs| == 9
    ensures |cs| == 9 && forall i :: 0 <= i < 9 ==> cs[i] == Chunk(PADS[i], NAMES[i], vs[i])
  {
    seq(9, i requires 0 <= i < 9 => Chunk(PADS[i], NAMES[i], vs[i]))
  }

  lemma {:induction false} TagNumbers(i: nat)
    requires i < 9
    ensures TagNo(NAMES[i]) == i
    ensures NAMES[i] != "" && Free(NAMES[i], IsSpace) && Without(NAMES[i], '=') && Without(NAMES[i], ';')
    ensures forall k :: 0 <= k < |PADS[i]| ==> IsSpace(PADS[i][k])
  {}

  lemma {:induction false} NineValid(vs: seq<string>)
    requires |vs| == 9 && forall i :: 0 <= i < 9 ==> Without(vs[i], ';')
    ensures Chunks(Nine(vs))
  {
    var cs := Nine(vs);
    forall i | 0 <= i < |cs| ensures cs[i].Valid() && TagNo(cs[i].name) == i { TagNumbers(i); }
  }

  lemma {:induction false} NineRead(vs: seq<string>, i: nat)
    requires |vs| == 9 && i < 9 && forall i :: 0 <= i < 9 ==> Without(vs[i], ';')
    ensures Get(Meaning(Nine(vs)), NAMES[i]) == TrimSpace(vs[i])
  {
    NineValid(vs);
    MeaningAt(Nine(vs), i);
  }

  lemma {:induction false} NineOther(vs: seq<string>, k: string)
    requires |vs| == 9 && TagNo(k) == 9
    ensures Get(Meaning(Nine(vs)), k) == ""
  {
    MeaningKeys(Nine(vs));
    if k in Meaning(Nine(vs)) {
      var i :| 0 <= i < 9 && Nine(vs)[i].name == k;
      TagNumbers(i);
    }
  }

  function Values(algo: string, d: string, s: string, now: nat, names: seq<string>, bh: seq<Octet>, sig: seq<Octet>)
    : (vs: seq<string>)
    ensures |vs| == 9
  {
    ["1", algo, "relaxed/relaxed", d, s, Decimal(now), Fold(FormatNames(names)), Encode(bh), SigBlock(sig)]
  }

  lemma {:induction false} TagsListed(algo: string, d: string, s: string, now: nat, names: seq<string>,
      bh: seq<Octet>, sig: seq<Octet>)
    ensures AllTags(HeadTags(algo, d, s, now, names, bh), sig) == Nine(Values(algo, d, s, now, names, bh, sig))
  {
    var cs, nine := AllTags(HeadTags(algo, d, s, now, names, bh), sig), Nine(Values(algo, d, s, now, names, bh, sig));
    assert cs[0] == nine[0] && cs[1] == nine[1] && cs[2] == nine[2] && cs[3] == nine[3] && cs[4] == nine[4];
    assert cs[5] == nine[5] && cs[6] == nine[6] && cs[7] == nine[7] && cs[8] == nine[8];
  }

  predicate Printable(kt: KeyType, d: string, s: string, names: seq<string>, sig: seq<Octet>) {
    TagSafe(d) && TagSafe(s) && PlainNames(names) && names != [] && sig != []
  }

  lemma {:induction false} ValuesSafe(kt: KeyType, d: string, s: string, now: nat, names: seq<string>, bh: seq<Octet>,
      sig: seq<Octet>)
    requires Printable(kt, d, s, names, sig)
    ensures var vs := Values(AlgoStr(kt), d, s, now, names, bh, sig); forall i :: 0 <= i < 9 ==> Without(vs[i], ';')
  {
    DecimalNoBreak(now);
    EncodeSafe(bh);
    SigBlockFacts(sig);
    NamesSafe(names);
    FixedSafe(kt);
    NineSafe("1", AlgoStr(kt), "relaxed/relaxed", d, s, Decimal(now), Fold(FormatNames(names)), Encode(bh), SigBlock(sig));
  }

  lemma {:induction false} NamesSafe(names: seq<string>)
    requires PlainNames(names) && names != []
    ensures Without(Fold(FormatNames(names)), ';')
  {
    FormatNamesSafe(names);
    FoldFree(FormatNames(names), Unsafe);
  }

  lemma {:induction false} FixedSafe(kt: KeyType)
    ensures Without("1", ';') && Without(AlgoStr(kt), ';') && Without("relaxed/relaxed", ';')
  {}

  lemma {:induction false} NineSafe(a: string, b: string, c: string, d: string, e: string, f: string, g: string,
      h: string, i: string)
    requires Without(a, ';') && Without(b, ';') && Without(c, ';') && Without(d, ';') && Without(e, ';')
    requires Without(f, ';') && Without(g, ';') && Without(h, ';') && Without(i, ';')
    ensures forall k :: 0 <= k < 9 ==> Without([a, b, c, d, e, f, g, h, i][k], ';')
  {}

  // What each tag holds once it was read.
  lemma {:induction false} TagsRead(kt: KeyType, d: string, s: string, now: nat, names: seq<string>, bh: seq<Octet>,
      sig: seq<Octet>)
    requires Printable(kt, d, s, names, sig)
    ensures var tags := Meaning(Nine(Values(AlgoStr(kt), d, s, now, names, bh, sig)));
      && Get(tags, "v") == "1" && Get(tags, "a") == AlgoStr(kt) && Get(tags, "c") == "relaxed/relaxed"
      && Get(tags, "d") == d && Get(tags, "s") == s && Get(tags, "t") == Decimal(now)
      && Get(tags, "h") == TrimSpace(Fold(FormatNames(names))) && Get(tags, "bh") == Encode(bh)
      && Get(tags, "b") == TrimSpace(SigBlock(sig))
  {
    var vs := Values(AlgoStr(kt), d, s, now, names, bh, sig);
    ValuesSafe(kt, d, s, now, names, bh, sig);
    NineRead(vs, 0);
    NineRead(vs, 1);
    NineRead(vs, 2);
    NineRead(vs, 3);
    NineRead(vs, 4);
    NineRead(vs, 5);
    NineRead(vs, 6);
    NineRead(vs, 7);
    NineRead(vs, 8);
    ValuesTrimmed(kt, d, s, now, bh);
  }

  lemma {:induction false} ValuesTrimmed(kt: KeyType, d: string, s: string, now: nat, bh: seq<Octet>)
    requires TagSafe(d) && TagSafe(s)
    ensures TrimSpace("1") == "1" && TrimSpace(AlgoStr(kt)) == AlgoStr(kt)
    ensures TrimSpace("relaxed/relaxed") == "relaxed/relaxed"
    ensures TrimSpace(d) == d && TrimSpace(s) == s
    ensures TrimSpace(Decimal(now)) == Decimal(now) && TrimSpace(Encode(bh)) == Encode(bh)
  {
    LiteralsTrimmed(kt);
    TrimPlain(d);
    TrimPlain(s);
    NumbersTrimmed(now, bh);
  }

  lemma {:induction false} LiteralsTrimmed(kt: KeyType)
    ensures TrimSpace("1") == "1" && TrimSpace(AlgoStr(kt)) == AlgoStr(kt)
    ensures TrimSpace("relaxed/relaxed") == "relaxed/relaxed"
  {
    var one, algo, canon := "1", AlgoStr(kt), "relaxed/relaxed";
    TrimPlain(one);
    TrimPlain(algo);
    TrimPlain(canon);
  }

  lemma {:induction false} NumbersTrimmed(now: nat, bh: seq<Octet>)
    ensures TrimSpace(Decimal(now)) == Decimal(now) && TrimSpace(Encode(bh)) == Encode(bh)
  {
    var t, e := Decimal(now), Encode(bh);
    assert Free(t, IsSpace) by { DecimalNoBreak(now); }
    assert Free(e, IsSpace) by {
      EncodeSafe(bh);
      EncodeNoFeed(bh);
      assert forall i :: 0 <= i < |e| ==> !IsBlank(e[i]) && !Feed(e[i]);
    }
    TrimPlain(t);
    TrimPlain(e);
  }

  // ---------------------------------------------------------------- the signature that is read

  lemma {:induction false} AlgoReads(kt: KeyType) returns (k: string)
    ensures Cut(AlgoStr(kt), '-') == Some((k, "sha256")) && KeyTypeOf(k) == Some(kt)
  {
    k := if kt == Rsa then "rsa" else "ed25519";
    assert AlgoStr(kt) == k + ['-'] + "sha256";
    CutAt(k, "sha256", '-');
  }

  lemma {:induction false} CanonReads()
    ensures CanonPair("relaxed/relaxed") == Some((Relaxed, Relaxed))
  {
    var r: string := "relaxed";
    assert r + ['/'] + r == "relaxed/relaxed";
    CanonReadsPair(r, r);
  }

  lemma {:induction false} CanonReadsPair(a: string, b: string)
    requires Without(a, '/') && b != "" && CanonOf(a).Some? && CanonOf(b).Some?
    ensures CanonPair(a + ['/'] + b) == Some((CanonOf(a).value, CanonOf(b).value))
  {
    CutAt(a, b, '/');
  }

  function Written(kt: KeyType, d: string, s: string, names: seq<string>, bh: seq<Octet>, sig: seq<Octet>): Signature {
    Signature(kt, sig, bh, Relaxed, Relaxed, d, LowerAll(names), "", 0, s)
  }

  predicate MentionsFrom(names: seq<string>) { exists k :: 0 <= k < |names| && EqualFold(names[k], "from") }

  lemma {:induction false} WrittenComplete(kt: KeyType, d: string, s: string, names: seq<string>, bh: seq<Octet>,
      sig: seq<Octet>)
    requires Printable(kt, d, s, names, sig) && bh != [] && MentionsFrom(names)
    ensures Required(AlgoStr(kt), Written(kt, d, s, names, bh, sig)) == None
  {
    var k :| 0 <= k < |names| && EqualFold(names[k], "from");
    LowerTwice(names[k]);
    assert EqualFold(LowerAll(names)[k], "from");
  }

  // The decoded parts make up the signature.
  lemma {:induction false} BodyFrom(tags: TagMap, sig: Signature)
    requires Decode(Remove(Get(tags, "b"), IsBlank)) == Ok(sig.b)
    requires Decode(Remove(Get(tags, "bh"), IsBlank)) == Ok(sig.bh)
    requires CanonPair(Get(tags, "c")) == Some((sig.cH, sig.cB))
    requires ParseTime(Get(tags, "t")).Some? && List(Get(tags, "h")) == sig.h
    requires Get(tags, "d") == sig.d && Get(tags, "s") == sig.s && sig.i == "" && sig.l == 0
    requires Get(tags, "i") == Get(tags, "l") == Get(tags, "q") == Get(tags, "x") == ""
    requires Required(Get(tags, "a"), sig) == None
    ensures SignatureBody(tags, sig.keyType) == Ok(sig)
  {}

  lemma {:induction false} HashReads(bh: seq<Octet>)
    ensures Decode(Remove(Encode(bh), IsBlank)) == Ok(bh)
  {
    EncodeSafe(bh);
    RemoveNothing(Encode(bh), IsBlank);
    Base64.RoundTrip(bh);
  }

  ghost predicate Holds(tags: TagMap, kt: KeyType, d: string, s: string, now: nat, names: seq<string>, bh: seq<Octet>,
                        sig: seq<Octet>) {
    && Get(tags, "v") == "1" && Get(tags, "a") == AlgoStr(kt) && Get(tags, "c") == "relaxed/relaxed"
    && Get(tags, "d") == d && Get(tags, "s") == s && Get(tags, "t") == Decimal(now)
    && Get(tags, "h") == TrimSpace(Fold(FormatNames(names))) && Get(tags, "bh") == Encode(bh)
    && Get(tags, "b") == TrimSpace(SigBlock(sig))
    && Get(tags, "i") == Get(tags, "l") == Get(tags, "q") == Get(tags, "x") == ""
  }

  lemma {:induction false} TagsHold(kt: KeyType, d: string, s: string, now: nat, names: seq<string>, bh: seq<Octet>,
      sig: seq<Octet>)
    requires Printable(kt, d, s, names, sig)
    ensures Holds(Meaning(Nine(Values(AlgoStr(kt), d, s, now, names, bh, sig))), kt, d, s, now, names, bh, sig)
  {
    var vs := Values(AlgoStr(kt), d, s, now, names, bh, sig);
    TagsRead(kt, d, s, now, names, bh, sig);
    NineOther(vs, "i");
    NineOther(vs, "l");
    NineOther(vs, "q");
    NineOther(vs, "x");
  }

  lemma {:induction false} TagsMean(tags: TagMap, kt: KeyType, d: string, s: string, now: nat, names: seq<string>,
      bh: seq<Octet>,
                 sig: seq<Octet>)
    requires Printable(kt, d, s, names, sig) && bh != [] && MentionsFrom(names) && now < 0x8000_0000_0000_0000
    requires Holds(tags, kt, d, s, now, names, bh, sig)
    ensures SignatureOf(tags) == Ok(Written(kt, d, s, names, bh, sig))
  {
    var w := Written(kt, d, s, names, bh, sig);
    assert SignatureBody(tags, kt) == Ok(w) by {
      SignatureReadsBack(sig);
      HashReads(bh);
      CanonReads();
      TimeRoundTrip(now);
      NamesReadBack(names);
      WrittenComplete(kt, d, s, names, bh, sig);
      BodyFrom(tags, w);
    }
    var k := AlgoReads(kt);
  }

  lemma {:induction false} TagsParse(kt: KeyType, d: string, s: string, now: nat, names: seq<string>, bh: seq<Octet>,
      sig: seq<Octet>)
    requires Printable(kt, d, s, names, sig)
    ensures var vs := Values(AlgoStr(kt), d, s, now, names, bh, sig);
      ParseTags(" " + Printed(Nine(vs))) == Ok(Meaning(Nine(vs)))
  {
    var vs := Values(AlgoStr(kt), d, s, now, names, bh, sig);
    ValuesSafe(kt, d, s, now, names, bh, sig);
    NineValid(vs);
    ParsePrinted(" ", Nine(vs));
    PrintedIsJoined(Nine(vs));
    Assoc(" ", JoinChar(Texts(Nine(vs)), ';'), ";");
  }

  // dkimSignatureFromHeader reads what Sign wrote, tag for tag.
  lemma {:induction false} SignatureReads(kt: KeyType, d: string, s: string, now: nat, names: seq<string>,
      bh: seq<Octet>, sig: seq<Octet>)
    requires Printable(kt, d, s, names, sig) && bh != [] && MentionsFrom(names) && now < 0x8000_0000_0000_0000
    ensures var head := SigHead(AlgoStr(kt), d, s, now, names, bh);
      ParseSignature(" " + Fold(head + Broken(Encode(sig)) + ";")) == Ok(Written(kt, d, s, names, bh, sig))
  {
    FoldedText(kt, d, s, now, names, bh, sig);
    TagsParse(kt, d, s, now, names, bh, sig);
    TagsHold(kt, d, s, now, names, bh, sig);
    TagsMean(Meaning(Nine(Values(AlgoStr(kt), d, s, now, names, bh, sig))), kt, d, s, now, names, bh, sig);
  }

  lemma {:induction false} FoldedText(kt: KeyType, d: string, s: string, now: nat, names: seq<string>, bh: seq<Octet>,
      sig: seq<Octet>)
    requires Printable(kt, d, s, names, sig)
    ensures var head := SigHead(AlgoStr(kt), d, s, now, names, bh);
      Fold(head + Broken(Encode(sig)) + ";") == Printed(Nine(Values(AlgoStr(kt), d, s, now, names, bh, sig)))
  {
    var algo := AlgoStr(kt);
    FoldedHead(kt, d, s, now, names, bh);
    FoldedSignature(SigHead(algo, d, s, now, names, bh), sig);
    PrintedAll(HeadTags(algo, d, s, now, names, bh), sig);
    TagsListed(algo, d, s, now, names, bh, sig);
  }
}
