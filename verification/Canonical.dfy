/** internal/dkim/canonicalize.go: the simple and relaxed canonicalisations of section 3.4 of RFC 6376.
    Each regular-expression replacement is a scanner over the text. */
module Canonical {
  import opened Text
  import opened Message

  predicate EndsCrlf(s: string) { |s| >= 2 && s[|s| - 2] == '\r' && s[|s| - 1] == '\n' }

  predicate StartsFold(s: string) { StartsCrlf(s) && |s| > 2 && IsWsp(s[2]) }

  // continuedHeader, \r\n[ \t]+  ->  one space
  function Unfold(s: string): string
    decreases |s|
  {
    if s == "" then ""
    else if StartsFold(s) then " " + Unfold(SkipWsp(s[2..]))
    else [s[0]] + Unfold(s[1..])
  }

  function SkipWsp(s: string): (r: string)
    ensures |r| <= |s| && (r == "" || !IsWsp(r[0]))
    ensures s != "" && IsWsp(s[0]) ==> |r| < |s|
  {
    if s != "" && IsWsp(s[0]) then SkipWsp(s[1..]) else s
  }

  lemma {:induction false} SkipWspSuffix(s: string)
    ensures SkipWsp(s) == s[|s| - |SkipWsp(s)|..]
  {
    if s != "" && IsWsp(s[0]) { SkipWspSuffix(s[1..]); }
  }

  // repeatedWSP, [ \t]+  ->  one space
  function Squeeze(s: string): string
    decreases |s|
  {
    if s == "" then ""
    else if IsWsp(s[0]) then " " + Squeeze(SkipWsp(s[1..]))
    else [s[0]] + Squeeze(s[1..])
  }

  // wspBeforeCRLF, [ \t]+\r\n  ->  CRLF
  function TrimLineEnds(s: string): string
    decreases |s|
  {
    if s == "" then ""
    else if IsWsp(s[0]) && StartsCrlf(SkipWsp(s)) then TrimLineEnds(SkipWsp(s))
    else [s[0]] + TrimLineEnds(s[1..])
  }

  function StripBreaks(s: string): (r: string)
    ensures !EndsCrlf(r) && |r| <= |s|
  {
    if EndsCrlf(s) then StripBreaks(s[..|s| - 2]) else s
  }

  // repeatedCRLFAtTheEnd, (\r\n)+$  ->  CRLF
  function CollapseEnd(s: string): string {
    if EndsCrlf(s) then StripBreaks(s) + CRLF else s
  }

  function SimpleBody(b: string): string {
    var c := CollapseEnd(b);
    if EndsCrlf(c) then c else c + CRLF
  }

  function RelaxBody(b: string): string {
    var c := CollapseEnd(Squeeze(TrimLineEnds(b)));
    if |c| >= 1 && !EndsCrlf(c) then c + CRLF else c
  }

  function RelaxValue(v: string): string {
    TrimLeft(TrimRight(Squeeze(Unfold(v)), IsWsp), IsWsp)
  }

  function RelaxHeader(h: Header): Header {
    var name := TrimRight(ToLower(h.name), IsWsp);
    var value := RelaxValue(h.value);
    Header(name, value, name + ":" + value)
  }

  datatype Canon = Simple | Relaxed {
    function Body(b: string): string { if this == Simple then SimpleBody(b) else RelaxBody(b) }
    function Field(h: Header): Header { if this == Simple then h else RelaxHeader(h) }
  }

  // ---------------------------------------------------------------- header fields

  // A maximal run of folding white space becomes one space.
  function SkipFws(s: string): (r: string)
    ensures |r| <= |s|
    ensures r == "" || (!IsWsp(r[0]) && !StartsFold(r))
  {
    if s != "" && IsWsp(s[0]) then SkipFws(s[1..])
    else if StartsFold(s) then SkipFws(s[2..])
    else s
  }

  function Flatten(s: string): string
    decreases |s|
  {
    if s == "" then ""
    else if IsWsp(s[0]) || StartsFold(s) then " " + Flatten(SkipFws(if IsWsp(s[0]) then s[1..] else s[2..]))
    else [s[0]] + Flatten(s[1..])
  }

  lemma {:induction false} SkipFwsOfSkipWsp(s: string)
    ensures SkipFws(SkipWsp(s)) == SkipFws(s)
  {
    if s != "" && IsWsp(s[0]) { SkipFwsOfSkipWsp(s[1..]); }
  }

  lemma {:induction false} SkipUnfolded(s: string)
    ensures SkipWsp(Unfold(s)) == Unfold(SkipFws(s))
    decreases |s|
  {
    if s == "" {
    } else if IsWsp(s[0]) {
      SkipUnfolded(s[1..]);
      assert Unfold(s)[1..] == Unfold(s[1..]);
    } else if StartsFold(s) {
      var t := SkipWsp(s[2..]);
      SkipUnfolded(t);
      SkipFwsOfSkipWsp(s[2..]);
      assert Unfold(s)[1..] == Unfold(t);
    } else {
      assert Unfold(s)[0] == s[0];
    }
  }

  // Unfolding and then squeezing is flattening.
  lemma {:induction false} FlattenIs(s: string)
    ensures Squeeze(Unfold(s)) == Flatten(s)
    decreases |s|
  {
    if s == "" {
    } else if IsWsp(s[0]) {
      assert Unfold(s)[1..] == Unfold(s[1..]);
      SkipUnfolded(s[1..]);
      FlattenIs(SkipFws(s[1..]));
    } else if StartsFold(s) {
      var t := SkipWsp(s[2..]);
      assert Unfold(s)[1..] == Unfold(t);
      SkipUnfolded(t);
      SkipFwsOfSkipWsp(s[2..]);
      FlattenIs(SkipFws(s[2..]));
    } else {
      assert Unfold(s)[1..] == Unfold(s[1..]);
      FlattenIs(s[1..]);
    }
  }

  // Folding white space: section 2.8 of RFC 6376.
  predicate Fws(w: string) {
    |w| > 0 && if IsWsp(w[0]) then |w| == 1 || Fws(w[1..]) else StartsFold(w) && Fws(w[2..])
  }

  lemma {:induction false} SkipFwsPrefix(w: string, y: string)
    requires Fws(w)
    ensures SkipFws(w + y) == SkipFws(y)
  {
    if IsWsp(w[0]) {
      assert (w + y)[1..] == w[1..] + y;
      if |w| == 1 { assert w[1..] + y == y; } else { SkipFwsPrefix(w[1..], y); }
    } else {
      assert (w + y)[2..] == w[2..] + y;
      SkipFwsPrefix(w[2..], y);
    }
  }

  lemma {:induction false} FlattenFws(w: string, y: string)
    requires Fws(w)
    ensures Flatten(w + y) == " " + Flatten(SkipFws(y))
  {
    var s := w + y;
    if IsWsp(w[0]) {
      assert s[1..] == w[1..] + y;
      if |w| == 1 { assert w[1..] + y == y; } else { SkipFwsPrefix(w[1..], y); }
    } else {
      assert s[2..] == w[2..] + y;
      SkipFwsPrefix(w[2..], y);
    }
  }

  // Where white space starts does not depend on what follows a non-dangling x.
  lemma {:induction false} SkipFwsAppend(x: string, z: string)
    requires !EndsCrlf(x) && z != "" && z[0] != '\n'
    ensures SkipFws(x) == "" ==> SkipFws(x + z) == SkipFws(z)
    ensures SkipFws(x) != "" ==> SkipFws(x + z) == SkipFws(x) + z && !EndsCrlf(SkipFws(x))
  {
    if x == "" {
      assert x + z == z;
    } else if IsWsp(x[0]) {
      assert (x + z)[1..] == x[1..] + z;
      SkipFwsAppend(x[1..], z);
    } else if StartsFold(x) {
      assert (x + z)[2..] == x[2..] + z;
      SkipFwsAppend(x[2..], z);
    }
  }

  lemma {:induction false} FlattenSameTail(x: string, z: string, z': string)
    requires !EndsCrlf(x) && z != "" && z[0] != '\n' && z' != "" && z'[0] != '\n'
    requires Flatten(z) == Flatten(z') && SkipFws(z) == SkipFws(z')
    ensures Flatten(x + z) == Flatten(x + z')
    decreases |x|
  {
    if x == "" {
      assert x + z == z && x + z' == z';
    } else if IsWsp(x[0]) || StartsFold(x) {
      var n := if IsWsp(x[0]) then 1 else 2;
      DropLeft(x, z, n);
      DropLeft(x, z', n);
      SkipFwsAppend(x[n..], z);
      SkipFwsAppend(x[n..], z');
      if SkipFws(x[n..]) != "" {
        FlattenSameTail(SkipFws(x[n..]), z, z');
      }
    } else {
      DropLeft(x, z, 1);
      DropLeft(x, z', 1);
      FlattenSameTail(x[1..], z, z');
    }
  }

  // Refolding: any run of folding white space may be exchanged for any other.
  lemma {:induction false} RefoldingIsInvisible(x: string, w: string, w': string, y: string)
    requires Fws(w) && Fws(w') && !EndsCrlf(x)
    ensures RelaxValue(x + w + y) == RelaxValue(x + w' + y)
  {
    FlattenFws(w, y);
    FlattenFws(w', y);
    SkipFwsPrefix(w, y);
    SkipFwsPrefix(w', y);
    FlattenSameTail(x, w + y, w' + y);
    FlattenIs(x + w + y);
    FlattenIs(x + w' + y);
    Assoc(x, w, y);
    Assoc(x, w', y);
  }

  // Flattening works piece by piece when a piece starts with a visible character.
  lemma {:induction false} FlattenAppend(a: string, b: string)
    requires b != "" && !IsBlank(b[0])
    ensures Flatten(a + b) == Flatten(a) + Flatten(b)
    decreases |a|
  {
    if a == "" {
      assert a + b == b;
    } else if IsWsp(a[0]) || StartsFold(a) {
      var n := if IsWsp(a[0]) then 1 else 2;
      DropLeft(a, b, n);
      SkipFwsVisible(a[n..], b);
      FlattenAppend(SkipFws(a[n..]), b);
      Assoc(" ", Flatten(SkipFws(a[n..])), Flatten(b));
    } else {
      DropLeft(a, b, 1);
      FlattenAppend(a[1..], b);
      Assoc([a[0]], Flatten(a[1..]), Flatten(b));
    }
  }

  lemma {:induction false} SkipFwsVisible(a: string, b: string)
    requires b != "" && !IsBlank(b[0])
    ensures SkipFws(a + b) == SkipFws(a) + b
  {
    if a == "" {
      assert a + b == b;
    } else if IsWsp(a[0]) {
      assert (a + b)[1..] == a[1..] + b;
      SkipFwsVisible(a[1..], b);
    } else if StartsFold(a) {
      assert (a + b)[2..] == a[2..] + b;
      SkipFwsVisible(a[2..], b);
    }
  }

  lemma {:induction false} FlattenVisible(a: string)
    requires Free(a, IsBlank)
    ensures Flatten(a) == a
  {
    if a != "" {
      FlattenVisible(a[1..]);
      assert a == [a[0]] + a[1..];
    }
  }

  // ---------------------------------------------------------------- relaxed fields are fixed points

  // Already relaxed text: single spaces, no line break.
  predicate Flat(s: string) {
    && NoCrlf(s)
    && (forall i :: 0 <= i < |s| && IsWsp(s[i]) ==> s[i] == ' ')
    && (forall i :: 0 <= i < |s| - 1 && IsWsp(s[i]) ==> !IsWsp(s[i + 1]))
  }

  lemma {:induction false} FlatPart(s: string, i: nat, j: nat)
    requires Flat(s) && i <= j <= |s|
    ensures Flat(s[i..j])
  {
    var t := s[i..j];
    NoCrlfPart(s, i, j);
    assert forall k :: 0 <= k < |t| ==> t[k] == s[i + k];
    forall k | 0 <= k < |t| - 1 && IsWsp(t[k]) ensures !IsWsp(t[k + 1]) {
      assert t[k] == s[i + k] && t[k + 1] == s[(i + k) + 1];
    }
  }

  lemma {:induction false} FlatFixed(s: string)
    requires Flat(s)
    ensures Flatten(s) == s
  {
    if s != "" {
      FlatPart(s, 1, |s|);
      assert s[1..|s|] == s[1..];
      FlatFixed(s[1..]);
      assert !StartsFold(s) by { if |s| > 2 { assert !(s[0] == '\r' && s[0 + 1] == '\n'); } }
      if IsWsp(s[0]) && |s| > 1 { assert !IsWsp(s[0 + 1]) && !StartsFold(s[1..]) by { FlatNoFold(s[1..]); } }
      assert s == [s[0]] + s[1..];
    }
  }

  lemma {:induction false} FlatNoFold(s: string)
    requires Flat(s)
    ensures !StartsFold(s)
  {
    if |s| > 2 { assert !(s[0] == '\r' && s[0 + 1] == '\n'); }
  }

  // Every line break of v is followed by white space.
  predicate Undangling(v: string) {
    v == "" || ((StartsCrlf(v) ==> StartsFold(v)) && Undangling(v[1..]))
  }

  lemma {:induction false} UndanglingFrom(v: string, n: nat)
    requires Undangling(v) && n <= |v|
    ensures Undangling(v[n..])
  {
    if n > 0 {
      UndanglingFrom(v[1..], n - 1);
      assert v[1..][n - 1..] == v[n..];
    } else {
      assert v[0..] == v;
    }
  }

  lemma {:induction false} SkipFwsSuffix(s: string)
    ensures SkipFws(s) == s[|s| - |SkipFws(s)|..]
  {
    if s != "" && IsWsp(s[0]) { SkipFwsSuffix(s[1..]); } else if StartsFold(s) { SkipFwsSuffix(s[2..]); }
  }

  lemma {:induction false} FlatCons(c: char, s: string)
    requires Flat(s) && c != '\t'
    requires c == ' ' ==> s == "" || !IsWsp(s[0])
    requires c == '\r' ==> s == "" || s[0] != '\n'
    ensures Flat([c] + s)
  {
    var t := [c] + s;
    assert forall k :: 1 <= k < |t| ==> t[k] == s[k - 1];
    forall i | 0 <= i < |t| - 1
      ensures !(t[i] == '\r' && t[i + 1] == '\n') && (IsWsp(t[i]) ==> !IsWsp(t[i + 1]))
    {
      if i > 0 { assert t[i] == s[i - 1] && t[i + 1] == s[(i - 1) + 1]; }
    }
  }

  lemma {:induction false} FlattenFlat(v: string)
    requires Undangling(v)
    ensures Flat(Flatten(v))
    ensures v != "" && !IsWsp(v[0]) && !StartsFold(v) ==> Flatten(v) != "" && Flatten(v)[0] == v[0]
    decreases |v|
  {
    if v == "" {
    } else if IsWsp(v[0]) || StartsFold(v) {
      var n := if IsWsp(v[0]) then 1 else 2;
      var t := SkipFws(v[n..]);
      SkipFwsSuffix(v[n..]);
      assert t == v[|v| - |t|..];
      UndanglingFrom(v, |v| - |t|);
      FlattenFlat(t);
      FlatCons(' ', Flatten(t));
    } else {
      FlattenFlat(v[1..]);
      if v[0] == '\r' && |v| > 1 {
        assert v[1..][0] != '\n';
        if !IsWsp(v[1]) && !StartsFold(v[1..]) {
          assert Flatten(v[1..])[0] == v[1];
        } else {
          assert Flatten(v[1..])[0] == ' ';
        }
      }
      FlatCons(v[0], Flatten(v[1..]));
    }
  }

  lemma {:induction false} TrimPart(s: string)
    ensures var t := TrimLeft(TrimRight(s, IsWsp), IsWsp);
      exists i, j :: 0 <= i <= j <= |s| && t == s[i..j]
  {
    TrimRightPrefix(s);
    var r := TrimRight(s, IsWsp);
    TrimLeftSuffix(r);
    var t := TrimLeft(r, IsWsp);
    assert t == s[|r| - |t|..|r|];
  }

  lemma {:induction false} TrimRightPrefix(s: string)
    ensures |TrimRight(s, IsWsp)| <= |s| && TrimRight(s, IsWsp) == s[..|TrimRight(s, IsWsp)|]
  {
    if s != "" && IsWsp(s[|s| - 1]) { TrimRightPrefix(s[..|s| - 1]); }
  }

  lemma {:induction false} TrimLeftSuffix(s: string)
    ensures |TrimLeft(s, IsWsp)| <= |s| && TrimLeft(s, IsWsp) == s[|s| - |TrimLeft(s, IsWsp)|..]
  {
    if s != "" && IsWsp(s[0]) { TrimLeftSuffix(s[1..]); }
  }

  lemma {:induction false} TrimmedBothEnds(s: string)
    ensures var t := TrimLeft(TrimRight(s, IsWsp), IsWsp); t == "" || (!IsWsp(t[0]) && !IsWsp(t[|t| - 1]))
  {
    var r := TrimRight(s, IsWsp);
    TrimLeftSuffix(r);
  }

  lemma {:induction false} RelaxedValueFlat(v: string)
    requires Undangling(v)
    ensures Flat(RelaxValue(v)) && RelaxValue(RelaxValue(v)) == RelaxValue(v)
  {
    FlattenIs(v);
    FlattenFlat(v);
    var q := Flatten(v);
    var t := RelaxValue(v);
    TrimPart(q);
    TrimmedBothEnds(q);
    var i, j :| 0 <= i <= j <= |q| && t == q[i..j];
    FlatPart(q, i, j);
    FlatFixed(t);
    FlattenIs(t);
  }

  lemma {:induction false} FoldedUndangling(v: string)
    requires Folded(v)
    ensures Undangling(v)
  {
    if v == "" {
    } else if StartsCrlf(v) {
      var l := SplitCrlf(v);
      assert l[1] == SplitCrlf(v[2..])[0] && l[1] != "";
      SplitPieces(v[2..]);
      assert forall k :: 1 <= k < |SplitCrlf(v[2..])| ==> SplitCrlf(v[2..])[k] == l[k + 1];
      FoldedUndangling(v[2..]);
      assert v[1..][1..] == v[2..];
    } else {
      assert forall k :: 1 <= k < |SplitCrlf(v[1..])| ==> SplitCrlf(v[1..])[k] == SplitCrlf(v)[k];
      FoldedUndangling(v[1..]);
    }
  }

  predicate WellFolded(h: Header) { NoCrlf(h.name) && Folded(h.value) }

  lemma {:induction false} FieldsWellFolded(lines: seq<string>)
    requires Fields(lines).Ok? && forall k :: 0 <= k < |lines| ==> NoCrlf(lines[k])
    ensures forall h :: h in Fields(lines).value ==> WellFolded(h)
  {
    if lines != [] {
      var n := |lines| - 1;
      FieldsWellFolded(lines[..n]);
      var hs := Fields(lines[..n]).value;
      if IsContinuation(lines[n]) {
        var h := hs[|hs| - 1];
        assert h in hs;
        SplitAppend(h.value, lines[n]);
        SplitPiece(lines[n]);
      } else {
        var h := ParseHeader(lines[n]).value;
        var l := lines[n];
        NoCrlfPart(l, 0, |h.name|);
        NoCrlfPart(l, |h.name| + 1, |l|);
        assert h.name == l[0..|h.name|] && h.value == l[|h.name| + 1..|l|];
        SplitPiece(h.value);
      }
    }
  }

  lemma {:induction false} ParsedWellFolded(message: string)
    requires Parse(message).Ok?
    ensures forall h :: h in Parse(message).value.headers ==> WellFolded(h)
  {
    var lines := SplitCrlf(message);
    SplitPieces(message);
    FieldsWellFolded(lines[..FirstEmpty(lines)]);
  }

  lemma {:induction false} TrimRightTwice(s: string)
    ensures TrimRight(TrimRight(s, IsWsp), IsWsp) == TrimRight(s, IsWsp)
  {}

  // relaxHeader is idempotent on every parsed header, and its source is a single line.
  lemma {:induction false} RelaxedFieldFixed(h: Header)
    requires WellFolded(h)
    ensures RelaxHeader(RelaxHeader(h)) == RelaxHeader(h)
    ensures NoCrlf(RelaxHeader(h).source)
  {
    FoldedUndangling(h.value);
    RelaxedValueFlat(h.value);
    RelaxedName(h.name);
    NoCrlfField(TrimRight(ToLower(h.name), IsWsp), RelaxValue(h.value));
  }

  // The canonical form of a field name is its own canonical form, and has no line break.
  lemma {:induction false} RelaxedName(n: string)
    requires NoCrlf(n)
    ensures var name := TrimRight(ToLower(n), IsWsp);
      ToLower(name) == name && TrimRight(name, IsWsp) == name && NoCrlf(name)
  {
    var low := ToLower(n);
    var name := TrimRight(low, IsWsp);
    TrimRightPrefix(low);
    LowerTwice(n);
    assert forall i :: 0 <= i < |name| ==> name[i] == low[i] && Lower(low[i]) == ToLower(low)[i];
    TrimRightTwice(low);
    forall i | 0 <= i < |name| - 1 ensures !(name[i] == '\r' && name[i + 1] == '\n') {
      assert name[i] == Lower(n[i]) && name[i + 1] == Lower(n[i + 1]);
      assert !(n[i] == '\r' && n[i + 1] == '\n');
    }
  }

  lemma {:induction false} NoCrlfField(name: string, value: string)
    requires NoCrlf(name) && NoCrlf(value)
    ensures NoCrlf(name + ":" + value)
  {
    var t := name + ":" + value;
    forall i | 0 <= i < |t| - 1 ensures !(t[i] == '\r' && t[i + 1] == '\n') {
      if i + 1 < |name| {
        assert !(name[i] == '\r' && name[i + 1] == '\n');
      } else if i > |name| {
        var k := i - |name| - 1;
        assert t[i] == value[k] && t[i + 1] == value[k + 1];
      }
    }
  }
}
