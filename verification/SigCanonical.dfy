/** The canonical signature field: what Sign hashes before b= is known is what verification rebuilds after it. */
module SigCanonical {
  import opened Text
  import opened Base64
  import opened Message
  import opened Canonical
  import opened Tags
  import opened Signing
  import opened Verifying
  import opened SigText
  import opened BTag
  import opened SigReading

  lemma {:induction false} FlattenFree(s: string, p: char -> bool)
    requires Free(s, p) && !p(' ')
    ensures Free(Flatten(s), p)
    decreases |s|
  {
    if s == "" {
    } else if IsWsp(s[0]) || StartsFold(s) {
      var t := if IsWsp(s[0]) then s[1..] else s[2..];
      SkipFwsSuffix(t);
      FlattenFree(SkipFws(t), p);
    } else {
      FlattenFree(s[1..], p);
    }
  }

  lemma {:induction false} FlattenStart(s: string)
    requires s != "" && !IsBlank(s[0])
    ensures Flatten(s) != "" && Flatten(s)[0] == s[0]
  {}

  lemma {:induction false} FlattenSignature(g: string, x: string)
    requires x == "" || !IsBlank(x[0])
    ensures Flatten(g + ("b=" + x + ";")) == Flatten(g) + ("b=" + Flatten(x) + ";")
  {
    var b: string := "b=";
    FlattenAppend(g, b + x + ";");
    FlattenAppend(b + x, ";");
    FlattenVisible(";");
    FlattenVisible(b);
    if x == "" {
      assert b + x == b && b + Flatten(x) == b;
    } else {
      FlattenAppend(b, x);
    }
  }

  lemma {:induction false} TrimmedAlready(t: string)
    requires t != "" && !IsWsp(t[0]) && !IsWsp(t[|t| - 1])
    ensures TrimLeft(TrimRight(t, IsWsp), IsWsp) == t
    ensures TrimLeft(TrimRight(" " + t, IsWsp), IsWsp) == t
  {
    assert (" " + t)[1..] == t;
    assert TrimRight(t, IsWsp) == t && TrimRight(" " + t, IsWsp) == " " + t;
  }

  // The relaxed value, with or without the space after the colon.
  lemma {:induction false} RelaxSignature(g: string, x: string)
    requires g != "" && !IsBlank(g[0]) && (x == "" || !IsBlank(x[0]))
    ensures var f := g + ("b=" + x + ";");
      RelaxValue(f) == RelaxValue(" " + f) == Flatten(g) + ("b=" + Flatten(x) + ";")
  {
    var f := g + ("b=" + x + ";");
    var t := Flatten(g) + ("b=" + Flatten(x) + ";");
    FlattenSignature(g, x);
    FlattenStart(g);
    FlattenIs(f);
    FlattenIs(" " + f);
    FlattenAppend(" ", f);
    assert Flatten(" ") == " " by { assert " "[1..] == ""; }
    TrimmedAlready(t);
  }

  lemma {:induction false} SigNameLower()
    ensures TrimRight(ToLower(SIG_NAME), IsWsp) == "dkim-signature"
  {
    assert ToLower(SIG_NAME) == "dkim-signature";
  }

  // ---------------------------------------------------------------- only b= is emptied

  lemma {:induction false} QuietValue(value: string)
    requires Without(value, '=')
    ensures Quiet(value, false)
  {
    QuietPlain(value, false);
  }

  lemma {:induction false} HeadQuiet(kt: KeyType, d: string, s: string, now: nat, names: seq<string>, bh: seq<Octet>)
    requires TagSafe(d) && TagSafe(s) && PlainNames(names)
    ensures var cs := HeadTags(AlgoStr(kt), d, s, now, names, bh); forall i :: 0 <= i < |cs| ==> QuietChunk(cs[i])
  {
    FirstQuiet(kt);
    KeysQuiet(d, s, now);
    FormatNamesSafe(names);
    FoldFree(FormatNames(names), Unsafe);
    assert Without(Fold(FormatNames(names)), '=');
    QuietValue(Fold(FormatNames(names)));
    EncodeSafe(bh);
    QuietTight(Encode(bh), false);
    var a, b, c, e := FirstTags(AlgoStr(kt)), KeyTags(d, s, now), NameTags(names), BodyTags(bh);
    assert QuietChunk(c[0]) && QuietChunk(e[0]);
    var cs := HeadTags(AlgoStr(kt), d, s, now, names, bh);
    forall i | 0 <= i < |cs| ensures QuietChunk(cs[i]) {
      if i < 3 { assert cs[i] == a[i]; } else if i < 6 { assert cs[i] == b[i - 3]; }
    }
  }

  lemma {:induction false} QuietTag(c: Chunk)
    requires c.pad == "" || c.pad == " " || c.pad == FOLD
    requires c.name != "" && Without(c.name, '=') && c.name[|c.name| - 1] != 'b' && !IsBlank(c.name[|c.name| - 1])
    requires Without(c.value, '=')
    ensures QuietChunk(c)
  {
    QuietValue(c.value);
  }

  lemma {:induction false} FirstQuiet(kt: KeyType)
    ensures forall i :: 0 <= i < 3 ==> QuietChunk(FirstTags(AlgoStr(kt))[i])
  {
    var cs := FirstTags(AlgoStr(kt));
    forall i | 0 <= i < 3 ensures QuietChunk(cs[i]) {
      assert Without(cs[i].value, '=');
      QuietTag(cs[i]);
    }
  }

  lemma {:induction false} KeysQuiet(d: string, s: string, now: nat)
    requires TagSafe(d) && TagSafe(s)
    ensures forall i :: 0 <= i < 3 ==> QuietChunk(KeyTags(d, s, now)[i])
  {
    DecimalNoBreak(now);
    QuietValue(d);
    QuietValue(s);
    QuietValue(Decimal(now));
  }

  // Everything before "b=", with the name of the field.
  lemma {:induction false} FieldQuiet(cs: seq<Chunk>)
    requires forall i :: 0 <= i < |cs| ==> QuietChunk(cs[i])
    ensures Quiet("dkim-signature:" + Flatten(Printed(cs) + FOLD), false)
  {
    var name: string := "dkim-signature:";
    QuietPrinted(cs);
    QuietAppend(Printed(cs), FOLD, false);
    ArmedBlank(FOLD, false);
    FlattenQuiet(Printed(cs) + FOLD, false);
    QuietPlain(name, false);
    ArmedLast(name, false);
    QuietAppend(name, Flatten(Printed(cs) + FOLD), false);
  }

  // ---------------------------------------------------------------- both sides

  lemma {:induction false} FoldedHeadIs(kt: KeyType, d: string, s: string, now: nat, names: seq<string>,
      bh: seq<Octet>, sig: seq<Octet>)
    requires Printable(kt, d, s, names, sig)
    ensures var head := SigHead(AlgoStr(kt), d, s, now, names, bh);
      var g := Printed(HeadTags(AlgoStr(kt), d, s, now, names, bh)) + FOLD;
      && g[0] == 'v'
      && Fold(head) + ";" == g + ("b=" + "" + ";")
      && Fold(head + Broken(Encode(sig)) + ";") == g + ("b=" + SigBlock(sig) + ";")
  {
    var head := SigHead(AlgoStr(kt), d, s, now, names, bh);
    var p := Printed(HeadTags(AlgoStr(kt), d, s, now, names, bh));
    var b: string := "b=";
    FoldedHead(kt, d, s, now, names, bh);
    FoldedSignature(head, sig);
    Assoc(p, FOLD, b);
    Assoc(p + FOLD, b, ";");
    assert b + "" == b;
    Assoc(p + FOLD, b, SigBlock(sig) + ";");
    Assoc(b, SigBlock(sig), ";");
    HeadPrinted(AlgoStr(kt), d, s, now, names, bh);
    PrintedFirst(AlgoStr(kt));
  }

  // Emptying b= in the canonical field that was written gives the field that was hashed.
  lemma {:induction false} SameSignatureField(kt: KeyType, d: string, s: string, now: nat, names: seq<string>,
      bh: seq<Octet>, sig: seq<Octet>, src: string)
    requires Printable(kt, d, s, names, sig)
    ensures var head := SigHead(AlgoStr(kt), d, s, now, names, bh);
      var v := Fold(head) + ";";
      EmptyBTag(RelaxHeader(Header(SIG_NAME, " " + Fold(head + Broken(Encode(sig)) + ";"), src)).source)
      == RelaxHeader(Header(SIG_NAME, v, v)).source
  {
    var cs := HeadTags(AlgoStr(kt), d, s, now, names, bh);
    var g, x := Printed(cs) + FOLD, SigBlock(sig);
    FoldedHeadIs(kt, d, s, now, names, bh, sig);
    SigBlockFacts(sig);
    HeadQuiet(kt, d, s, now, names, bh);
    FieldQuiet(cs);
    EmptiedField(g, x, src);
  }

  // Emptying b= in the relaxed field gives the relaxed field that was written without a signature.
  lemma {:induction false} EmptiedField(g: string, x: string, src: string)
    requires g != "" && !IsBlank(g[0]) && x != "" && !IsBlank(x[0]) && Without(x, ';')
    requires Quiet("dkim-signature:" + Flatten(g), false)
    ensures var v := g + ("b=" + "" + ";");
      EmptyBTag(RelaxHeader(Header(SIG_NAME, " " + (g + ("b=" + x + ";")), src)).source)
      == RelaxHeader(Header(SIG_NAME, v, v)).source
  {
    var v := g + ("b=" + "" + ";");
    RelaxedField(g, x, " " + (g + ("b=" + x + ";")), src);
    RelaxedField(g, "", v, v);
    BlockFlat(x);
    EmptyBTagOfSignature("dkim-signature:" + Flatten(g), Flatten(x));
    assert "b=" + Flatten("") + ";" == "b=;";
  }

  lemma {:induction false} RelaxedField(g: string, x: string, v: string, src: string)
    requires g != "" && !IsBlank(g[0]) && (x == "" || !IsBlank(x[0]))
    requires v == g + ("b=" + x + ";") || v == " " + (g + ("b=" + x + ";"))
    ensures RelaxHeader(Header(SIG_NAME, v, src)).source == ("dkim-signature:" + Flatten(g)) + ("b=" + Flatten(x) + ";")
  {
    RelaxSignature(g, x);
    SigNameLower();
    var name: string := "dkim-signature";
    assert name + ":" == "dkim-signature:";
    Assoc(name + ":", Flatten(g), "b=" + Flatten(x) + ";");
  }

  lemma {:induction false} BlockFlat(x: string)
    requires x != "" && !IsBlank(x[0]) && Without(x, ';')
    ensures Flatten(x) != "" && Without(Flatten(x), ';')
  {
    FlattenStart(x);
    FlattenFree(x, c => c == ';');
  }
}
