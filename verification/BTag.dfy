/** The replacement that empties the b= tag touches that tag and nothing else of a signature. */
module BTag {
  import opened Text
  import opened Canonical
  import opened Tags
  import opened Verifying

  // Reading left to right: armed after a "b" and the blanks behind it.
  function Next(c: char, armed: bool): bool { c == 'b' || (IsBlank(c) && armed) }

  function Armed(s: string, armed: bool): bool {
    if s == "" then armed else Armed(s[1..], Next(s[0], armed))
  }

  // No "b", blanks and "=" in a row.
  predicate Quiet(s: string, armed: bool) {
    s == "" || (!(s[0] == '=' && armed) && Quiet(s[1..], Next(s[0], armed)))
  }

  lemma {:induction false} QuietAppend(x: string, y: string, armed: bool)
    ensures Armed(x + y, armed) == Armed(y, Armed(x, armed))
    ensures Quiet(x + y, armed) <==> Quiet(x, armed) && Quiet(y, Armed(x, armed))
  {
    if x == "" {
      assert x + y == y;
    } else {
      assert (x + y)[1..] == x[1..] + y;
      QuietAppend(x[1..], y, Next(x[0], armed));
    }
  }

  lemma {:induction false} QuietPlain(s: string, armed: bool)
    requires Without(s, '=')
    ensures Quiet(s, armed)
  {
    if s != "" { QuietPlain(s[1..], Next(s[0], armed)); }
  }

  lemma {:induction false} ArmedBlank(s: string, armed: bool)
    requires forall i :: 0 <= i < |s| ==> IsBlank(s[i])
    ensures Armed(s, false) == false && Quiet(s, armed)
  {
    if s != "" {
      ArmedBlank(s[1..], Next(s[0], armed));
    }
  }

  lemma {:induction false} ArmedLast(s: string, armed: bool)
    requires s != "" && s[|s| - 1] != 'b' && !IsBlank(s[|s| - 1])
    ensures !Armed(s, armed)
  {
    if |s| == 1 {
      assert s[1..] == "";
    } else {
      ArmedLast(s[1..], Next(s[0], armed));
    }
  }

  lemma {:induction false} QuietTight(s: string, armed: bool)
    requires Free(s, IsBlank) && (s != "" && s[0] == '=' ==> !armed)
    requires forall i :: 0 < i < |s| && s[i] == '=' ==> s[i - 1] != 'b'
    ensures Quiet(s, armed)
  {
    if s != "" {
      var t := s[1..];
      forall i | 0 < i < |t| && t[i] == '=' ensures t[i - 1] != 'b' {
        assert s[i + 1] == t[i] && s[i + 1 - 1] == t[i - 1];
      }
      if |t| > 0 { assert s[1] == t[0] && s[1 - 1] == s[0]; }
      QuietTight(t, Next(s[0], armed));
    }
  }

  lemma {:induction false} SkipFwsQuiet(s: string, armed: bool)
    ensures Quiet(SkipFws(s), armed) == Quiet(s, armed)
  {
    if s != "" && IsWsp(s[0]) {
      SkipFwsQuiet(s[1..], armed);
    } else if StartsFold(s) {
      SkipFwsQuiet(s[2..], armed);
      assert s[1..][1..] == s[2..];
      assert Next('\r', armed) == armed == Next('\n', armed);
    }
  }

  // Relaxing the text does not matter.
  lemma {:induction false} FlattenQuiet(s: string, armed: bool)
    ensures Quiet(Flatten(s), armed) == Quiet(s, armed)
    decreases |s|
  {
    if s == "" {
    } else if IsWsp(s[0]) || StartsFold(s) {
      var t := if IsWsp(s[0]) then s[1..] else s[2..];
      FlattenQuiet(SkipFws(t), armed);
      SkipFwsQuiet(t, armed);
      assert Flatten(s)[1..] == Flatten(SkipFws(t));
      if !IsWsp(s[0]) {
        assert s[1..][1..] == s[2..];
        assert Next('\r', armed) == armed == Next('\n', armed);
      }
    } else {
      FlattenQuiet(s[1..], Next(s[0], armed));
      assert Flatten(s)[1..] == Flatten(s[1..]);
    }
  }

  lemma {:induction false} QuietAfterB(q: string, rest: string)
    requires Quiet(q, true) && rest != "" && rest[0] != '=' && !IsBlank(rest[0])
    ensures SkipBlank(q + rest) != "" && SkipBlank(q + rest)[0] != '='
  {
    if q == "" {
      assert q + rest == rest;
    } else if IsBlank(q[0]) {
      assert (q + rest)[1..] == q[1..] + rest;
      QuietAfterB(q[1..], rest);
    }
  }

  // Quiet text in front of the tag is copied.
  lemma {:induction false} EmptyBTagCopies(p: string, rest: string, armed: bool)
    requires Quiet(p, armed) && rest != "" && rest[0] != '=' && !IsBlank(rest[0])
    ensures EmptyBTag(p + rest) == p + EmptyBTag(rest)
  {
    if p == "" {
      assert p + rest == rest && p + EmptyBTag(rest) == EmptyBTag(rest);
    } else {
      var s := p + rest;
      assert s[1..] == p[1..] + rest;
      if p[0] == 'b' { QuietAfterB(p[1..], rest); }
      assert BTagAt(s) == None;
      EmptyBTagCopies(p[1..], rest, Next(p[0], armed));
      Assoc([p[0]], p[1..], EmptyBTag(rest));
      assert [p[0]] + p[1..] == p;
    }
  }

  lemma {:induction false} SkipToEnd(x: string)
    requires Without(x, ';')
    ensures SkipToSemicolon(x + ";") == ";"
  {
    if x == "" {
      assert x + ";" == ";";
    } else {
      assert (x + ";")[1..] == x[1..] + ";";
      SkipToEnd(x[1..]);
    }
  }

  lemma {:induction false} EmptyBTagHit(x: string)
    requires x != "" && Without(x, ';')
    ensures EmptyBTag("b=" + x + ";") == "b=;"
  {
    var s := "b=" + x + ";";
    assert s[1..] == "=" + (x + ";");
    assert SkipBlank(s[1..]) == s[1..];
    assert s[1..][1..] == x + ";";
    assert BTagAt(s) == Some(x + ";");
    assert s[..|s| - |x + ";"|] == "b=";
    SkipToEnd(x);
    assert EmptyBTag(";") == [';'] + EmptyBTag("") == ";";
  }

  // The signature header: all tags but the last are quiet.
  lemma {:induction false} EmptyBTagOfSignature(z: string, x: string)
    requires Quiet(z, false) && x != "" && Without(x, ';')
    ensures EmptyBTag(z + ("b=" + x + ";")) == z + "b=;"
  {
    EmptyBTagCopies(z, "b=" + x + ";", false);
    EmptyBTagHit(x);
  }

  // ---------------------------------------------------------------- printed tags

  function Printed(cs: seq<Chunk>): string {
    if cs == [] then "" else Printed(cs[..|cs| - 1]) + (cs[|cs| - 1].Text() + ";")
  }

  lemma {:induction false} PrintedAppend(a: seq<Chunk>, b: seq<Chunk>)
    ensures Printed(a + b) == Printed(a) + Printed(b)
  {
    if b == [] {
      assert a + b == a && Printed(a) + "" == Printed(a);
    } else {
      var n := |b| - 1;
      assert (a + b)[..|a + b| - 1] == a + b[..n];
      PrintedAppend(a, b[..n]);
      Assoc(Printed(a), Printed(b[..n]), b[n].Text() + ";");
    }
  }

  lemma {:induction false} PrintedOne(c: Chunk)
    ensures Printed([c]) == c.Text() + ";"
  {
    assert [c][..0] == [];
    assert "" + (c.Text() + ";") == c.Text() + ";";
  }

  lemma {:induction false} JoinSnoc(ls: seq<string>, l: string, c: char)
    requires ls != []
    ensures JoinChar(ls + [l], c) == JoinChar(ls, c) + [c] + l
  {
    if |ls| == 1 {
      assert (ls + [l])[1..] == [l];
    } else {
      assert (ls + [l])[1..] == ls[1..] + [l];
      JoinSnoc(ls[1..], l, c);
      Assoc(ls[0] + [c], JoinChar(ls[1..], c), [c]);
      Assoc(ls[0] + [c], JoinChar(ls[1..], c) + [c], l);
    }
  }

  lemma {:induction false} PrintedIsJoined(cs: seq<Chunk>)
    requires cs != []
    ensures Printed(cs) == JoinChar(Texts(cs), ';') + ";"
  {
    var n := |cs| - 1;
    if n == 0 {
      assert cs == [cs[0]];
      PrintedOne(cs[0]);
    } else {
      PrintedIsJoined(cs[..n]);
      assert Texts(cs) == Texts(cs[..n]) + [cs[n].Text()];
      JoinSnoc(Texts(cs[..n]), cs[n].Text(), ';');
      Assoc(JoinChar(Texts(cs[..n]), ';') + ";", cs[n].Text(), ";");
    }
  }

  // A tag whose name does not end in "b" and whose value is quiet.
  predicate QuietChunk(c: Chunk) {
    && (forall i :: 0 <= i < |c.pad| ==> IsBlank(c.pad[i]))
    && c.name != "" && Without(c.name, '=') && c.name[|c.name| - 1] != 'b' && !IsBlank(c.name[|c.name| - 1])
    && Quiet(c.value, false)
  }

  lemma {:induction false} QuietText(c: Chunk)
    requires QuietChunk(c)
    ensures Quiet(c.Text() + ";", false) && !Armed(c.Text() + ";", false)
  {
    var pn := c.pad + c.name;
    ArmedLast(c.Text() + ";", false);
    assert Without(pn, '=') by { assert forall i :: 0 <= i < |c.pad| ==> c.pad[i] != '='; }
    QuietPlain(pn, false);
    ArmedLast(pn, false);
    QuietAppend(pn, "=", false);
    assert Quiet("=", false) by { assert "="[1..] == ""; }
    ArmedLast(pn + "=", false);
    QuietAppend(pn + "=", c.value, false);
    QuietAppend(pn + "=" + c.value, ";", false);
    QuietPlain(";", Armed(pn + "=" + c.value, false));
  }

  lemma {:induction false} QuietPrinted(cs: seq<Chunk>)
    requires forall i :: 0 <= i < |cs| ==> QuietChunk(cs[i])
    ensures Quiet(Printed(cs), false) && !Armed(Printed(cs), false)
  {
    if cs != [] {
      var n := |cs| - 1;
      QuietPrinted(cs[..n]);
      QuietText(cs[n]);
      QuietAppend(Printed(cs[..n]), cs[n].Text() + ";", false);
    }
  }
}
