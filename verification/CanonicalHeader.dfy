/** internal/dkim/canonicalize.go, relaxHeader: what it computes, in the words of section 3.4.2 of RFC 6376. */
module CanonicalHeader {
  import opened Text
  import opened Message
  import opened Canonical

  // A stretch of a field value without white space.
  predicate Word(x: string) { x != "" && Free(x, IsWsp) && NoCrlf(x) }

  predicate Gap(g: string) { g == "" || Fws(g) }

  // Words with folding white space between them, and possibly before and after them.
  predicate Layout(words: seq<string>, gaps: seq<string>) {
    && |gaps| == |words| + 1
    && (forall k :: 0 <= k < |words| ==> Word(words[k]))
    && (forall k :: 0 < k < |words| ==> Fws(gaps[k]))
    && Gap(gaps[0]) && Gap(gaps[|words|])
  }

  function Laid(words: seq<string>, gaps: seq<string>): string
    requires |gaps| == |words| + 1
  {
    if words == [] then gaps[0] else gaps[0] + (words[0] + Laid(words[1..], gaps[1..]))
  }

  function Pad(g: string): string { if g == "" then "" else " " }

  // ---------------------------------------------------------------- the relaxed value of a layout

  lemma {:induction false} GapStart(g: string)
    requires Fws(g)
    ensures g[0] != '\n' && (IsWsp(g[0]) || StartsFold(g))
  {}

  // A text that does not start with white space.
  predicate Visible(s: string) { s == "" || (!IsWsp(s[0]) && !StartsFold(s)) }

  lemma {:induction false} FlattenGap(g: string, y: string)
    requires Gap(g) && Visible(y)
    ensures Flatten(g + y) == Pad(g) + Flatten(y)
  {
    if g == "" {
      assert g + y == y && "" + Flatten(y) == Flatten(y);
    } else {
      FlattenFws(g, y);
    }
  }

  lemma {:induction false} FlattenWord(x: string, y: string)
    requires Free(x, IsWsp) && NoCrlf(x) && (y == "" || y[0] != '\n')
    ensures Flatten(x + y) == x + Flatten(y)
  {
    if x == "" {
      assert x + y == y && x + Flatten(y) == Flatten(y);
    } else {
      DropLeft(x, y, 1);
      NoCrlfPart(x, 1, |x|);
      assert x[1..|x|] == x[1..];
      WordStart(x, y);
      FlattenWord(x[1..], y);
      assert x == [x[0]] + x[1..];
      Assoc([x[0]], x[1..], Flatten(y));
    }
  }

  lemma {:induction false} WordStart(x: string, y: string)
    requires x != "" && Free(x, IsWsp) && NoCrlf(x) && (y == "" || y[0] != '\n')
    ensures Visible(x + y)
  {
    if |x| > 1 { assert !(x[0] == '\r' && x[0 + 1] == '\n'); }
  }

  lemma {:induction false} LayoutTail(words: seq<string>, gaps: seq<string>)
    requires Layout(words, gaps) && words != []
    ensures Layout(words[1..], gaps[1..])
    ensures var rest := Laid(words[1..], gaps[1..]); rest == "" || rest[0] != '\n'
  {
    forall k | 0 < k < |words[1..]| ensures Fws(gaps[1..][k]) { assert Fws(gaps[k + 1]); }
    assert |words| > 1 ==> Fws(gaps[1]);
    if gaps[1] != "" { GapStart(gaps[1]); }
  }

  // Flattened, a layout is its words with single spaces between them, and what is left of its ends.
  lemma {:induction false} FlattenLaid(words: seq<string>, gaps: seq<string>)
    requires Layout(words, gaps)
    ensures Flatten(Laid(words, gaps)) ==
      if words == [] then Pad(gaps[0]) else Pad(gaps[0]) + (JoinChar(words, ' ') + Pad(gaps[|words|]))
  {
    if words == [] {
      FlattenGap(gaps[0], "");
      assert gaps[0] + "" == gaps[0] && Pad(gaps[0]) + "" == Pad(gaps[0]);
    } else {
      var rest := Laid(words[1..], gaps[1..]);
      LayoutTail(words, gaps);
      WordStart(words[0], rest);
      FlattenGap(gaps[0], words[0] + rest);
      FlattenWord(words[0], rest);
      FlattenLaid(words[1..], gaps[1..]);
      JoinWords(words, gaps);
    }
  }

  lemma {:induction false} JoinWords(words: seq<string>, gaps: seq<string>)
    requires Layout(words, gaps) && words != []
    ensures var tail := Pad(gaps[|words|]);
      words[0] + (if |words| == 1 then Pad(gaps[1..][0]) else Pad(gaps[1..][0]) + (JoinChar(words[1..], ' ') + tail))
      == JoinChar(words, ' ') + tail
  {
    if |words| > 1 {
      assert Fws(gaps[1]) && Pad(gaps[1..][0]) == " ";
      var join, tail := JoinChar(words[1..], ' '), Pad(gaps[|words|]);
      assert words[0] + (" " + (join + tail)) == (words[0] + " " + join) + tail;
    }
  }

  predicate NoWspEnds(s: string) { s == "" || (!IsWsp(s[0]) && !IsWsp(s[|s| - 1])) }

  lemma {:induction false} JoinEnds(words: seq<string>)
    requires words != [] && forall k :: 0 <= k < |words| ==> Word(words[k])
    ensures var j := JoinChar(words, ' '); j != "" && NoWspEnds(j)
  {
    assert Word(words[0]);
    if |words| > 1 {
      JoinEnds(words[1..]);
    }
  }

  lemma {:induction false} TrimPadded(p: string, j: string, q: string)
    requires p in {"", " "} && q in {"", " "} && NoWspEnds(j) && j != ""
    ensures TrimLeft(TrimRight(p + (j + q), IsWsp), IsWsp) == j
  {
    var s := p + (j + q);
    TrimPads(p + j, q);
    Assoc(p, j, q);
    assert TrimRight(p + j, IsWsp) == p + j;
    TrimLeftPad(p, j, IsWsp);
  }

  lemma {:induction false} TrimPads(x: string, q: string)
    requires q in {"", " "}
    ensures TrimRight(x + q, IsWsp) == TrimRight(x, IsWsp)
  {
    if q == " " { assert (x + q)[..|x + q| - 1] == x; } else { assert x + q == x; }
  }

  // What relaxHeader makes of a value: its words, with one space between them.
  lemma {:induction false} RelaxValueMeaning(words: seq<string>, gaps: seq<string>)
    requires Layout(words, gaps)
    ensures RelaxValue(Laid(words, gaps)) == JoinChar(words, ' ')
  {
    FlattenIs(Laid(words, gaps));
    FlattenLaid(words, gaps);
    if words == [] {
      TrimPads("", Pad(gaps[0]));
      assert "" + Pad(gaps[0]) == Pad(gaps[0]);
    } else {
      JoinEnds(words);
      TrimPadded(Pad(gaps[0]), JoinChar(words, ' '), Pad(gaps[|words|]));
    }
  }

  // ---------------------------------------------------------------- every parsed value has a layout

  // The white space a text starts with.
  function Lead(v: string): (n: nat)
    ensures n <= |v|
  {
    |v| - |SkipFws(v)|
  }

  lemma {:induction false} LeadIsGap(v: string)
    ensures Gap(v[..Lead(v)]) && Visible(v[Lead(v)..])
  {
    SkipFwsSuffix(v);
    if v != "" && IsWsp(v[0]) {
      LeadIsGap(v[1..]);
      ExtendGap(v, 1);
    } else if StartsFold(v) {
      LeadIsGap(v[2..]);
      LeadPositive(v[2..]);
      ExtendGap(v, 2);
    }
  }

  lemma {:induction false} LeadPositive(v: string)
    requires v != "" && IsWsp(v[0])
    ensures Lead(v) > 0
  {}

  lemma {:induction false} ExtendGap(v: string, n: nat)
    requires n == (if v != "" && IsWsp(v[0]) then 1 else 2) && (n == 2 ==> StartsFold(v))
    requires Gap(v[n..][..Lead(v[n..])]) && (n == 2 ==> Lead(v[n..]) > 0)
    ensures Lead(v) == n + Lead(v[n..]) && Gap(v[..Lead(v)])
  {
    var g := v[..Lead(v)];
    assert g[n..] == v[n..][..Lead(v[n..])];
    assert n == 2 ==> StartsFold(g);
  }

  // How far the first word of a text goes.
  function WordEnd(v: string): (n: nat)
    ensures n <= |v|
  {
    if Visible(v) && v != "" then 1 + WordEnd(v[1..]) else 0
  }

  lemma {:induction false} WordEnds(v: string)
    requires Undangling(v)
    ensures Free(v[..WordEnd(v)], IsWsp) && NoCrlf(v[..WordEnd(v)])
    ensures WordEnd(v) == |v| || !Visible(v[WordEnd(v)..])
  {
    var n := WordEnd(v);
    if Visible(v) && v != "" {
      WordEnds(v[1..]);
      var x := v[1..][..n - 1];
      assert v[..n] == [v[0]] + x && v[1..][n - 1..] == v[n..];
      NoCrlfCons(v[0], x, v);
    }
  }

  lemma {:induction false} NoCrlfCons(c: char, x: string, v: string)
    requires NoCrlf(x) && [c] + x <= v && Undangling(v) && !StartsFold(v)
    ensures NoCrlf([c] + x)
  {
    var t := [c] + x;
    forall i | 0 <= i < |t| - 1 ensures !(t[i] == '\r' && t[i + 1] == '\n') {
      if i > 0 {
        assert t[i] == x[i - 1] && t[i + 1] == x[i - 1 + 1];
      } else {
        assert v[0] == t[0] && v[1] == t[1];
      }
    }
  }

  lemma {:induction false} LayoutOf(v: string) returns (words: seq<string>, gaps: seq<string>)
    requires Undangling(v)
    ensures Layout(words, gaps) && Laid(words, gaps) == v && (Visible(v) ==> gaps[0] == "")
    decreases |v|
  {
    var n := Lead(v);
    LeadIsGap(v);
    if n == |v| {
      words, gaps := [], [v];
      assert v[..n] == v;
    } else {
      var rest := v[n..];
      UndanglingFrom(v, n);
      words, gaps := LayoutFrom(rest);
      var g := v[..n];
      assert v == g + rest;
      NewGap(words, gaps, g);
      gaps := [g] + gaps[1..];
    }
  }

  lemma {:induction false} NewGap(words: seq<string>, gaps: seq<string>, g: string)
    requires Layout(words, gaps) && words != [] && gaps[0] == "" && Gap(g)
    ensures Layout(words, [g] + gaps[1..]) && Laid(words, [g] + gaps[1..]) == g + Laid(words, gaps)
  {
    var all := [g] + gaps[1..];
    assert all[1..] == gaps[1..];
    assert "" + (words[0] + Laid(words[1..], gaps[1..])) == words[0] + Laid(words[1..], gaps[1..]);
    forall k | 0 < k < |words| ensures Fws(all[k]) { assert Fws(gaps[k]) && all[k] == gaps[k]; }
  }

  // The layout of a text that starts with a word.
  lemma {:induction false} LayoutFrom(v: string) returns (words: seq<string>, gaps: seq<string>)
    requires Undangling(v) && v != "" && Visible(v)
    ensures Layout(words, gaps) && Laid(words, gaps) == v && words != [] && gaps[0] == ""
    decreases |v|, 0
  {
    var n := WordEnd(v);
    WordEnds(v);
    UndanglingFrom(v, n);
    var x, rest := v[..n], v[n..];
    var ws, gs := LayoutOf(rest);
    words, gaps := [x] + ws, [""] + gs;
    assert v == x + rest && words[1..] == ws && gaps[1..] == gs;
    InnerGap(ws, gs, rest);
    forall k | 0 < k < |words| ensures Fws(gaps[k]) {
      if k == 1 { assert gaps[1] == gs[0]; } else { assert gaps[k] == gs[k - 1] && Fws(gs[k - 1]); }
    }
  }

  // White space that a text starts with is in the first gap.
  lemma {:induction false} InnerGap(words: seq<string>, gaps: seq<string>, v: string)
    requires Layout(words, gaps) && Laid(words, gaps) == v && (v == "" || !Visible(v))
    ensures words != [] ==> Fws(gaps[0])
  {
    if words != [] && gaps[0] == "" {
      LayoutTail(words, gaps);
      WordStart(words[0], Laid(words[1..], gaps[1..]));
    }
  }

  // ---------------------------------------------------------------- relaxHeader

  // Everything relaxHeader does to a parsed header: the name in lower case without the white space at its end, and the
  // words of the value with single spaces between them. Every layout of the value gives the same words.
  lemma {:induction false} RelaxHeaderMeaning(h: Header) returns (words: seq<string>, gaps: seq<string>, pad: string)
    requires WellFolded(h)
    ensures Layout(words, gaps) && h.value == Laid(words, gaps)
    ensures forall i :: 0 <= i < |pad| ==> IsWsp(pad[i])
    ensures var r := RelaxHeader(h);
      && r.value == JoinChar(words, ' ')
      && r.name + pad == ToLower(h.name) && (r.name == "" || !IsWsp(r.name[|r.name| - 1]))
      && r.source == r.name + ":" + r.value
  {
    FoldedUndangling(h.value);
    words, gaps := LayoutOf(h.value);
    RelaxValueMeaning(words, gaps);
    var low := ToLower(h.name);
    TrimRightMeaning(low, IsWsp);
    pad := low[|TrimRight(low, IsWsp)|..];
  }

  lemma {:induction false} SameWords(a: seq<string>, g: seq<string>, b: seq<string>, g': seq<string>)
    requires Layout(a, g) && Layout(b, g') && Laid(a, g) == Laid(b, g')
    ensures a == b
  {
    RelaxValueMeaning(a, g);
    RelaxValueMeaning(b, g');
    if a == [] || b == [] {
      if a != [] { JoinEnds(a); }
      if b != [] { JoinEnds(b); }
    } else {
      forall k | 0 <= k < |a| ensures Without(a[k], ' ') { assert Word(a[k]); }
      forall k | 0 <= k < |b| ensures Without(b[k], ' ') { assert Word(b[k]); }
      SplitCharJoin(a, ' ');
      SplitCharJoin(b, ' ');
    }
  }
}
