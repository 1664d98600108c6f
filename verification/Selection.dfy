/** internal/dkim/verify.go, headersToInclude: which fields a list of names selects (section 5.4.2 of RFC 6376). */
module Selection {
  import opened Text
  import opened Message

  // How often `name` is mentioned.
  function Mentions(hTag: seq<string>, name: string): nat {
    if hTag == [] then 0
    else Mentions(hTag[..|hTag| - 1], name) + if EqualFold(hTag[|hTag| - 1], name) then 1 else 0
  }

  // The j-th mention: the k-th mention of a name takes the k-th instance from the bottom.
  function Pick(hTag: seq<string>, j: nat, hs: seq<Header>): Option<Header>
    requires j < |hTag|
  {
    var p, all := Mentions(hTag[..j], hTag[j]), Named(hs, hTag[j]);
    if p < |all| then Some(all[|all| - 1 - p]) else None
  }

  // The selected fields, the signature being verified left out.
  function Selected(hTag: seq<string>, hs: seq<Header>, sigH: Header): seq<Header> {
    if hTag == [] then []
    else
      var n := |hTag| - 1;
      Selected(hTag[..n], hs, sigH) + Choice(Pick(hTag, n, hs), sigH)
  }

  function Choice(pick: Option<Header>, sigH: Header): seq<Header> {
    if pick.Some? && pick.value != sigH then [pick.value] else []
  }

  lemma {:induction false} MentionsFold(hTag: seq<string>, a: string, b: string)
    requires EqualFold(a, b)
    ensures Mentions(hTag, a) == Mentions(hTag, b)
  {
    if hTag != [] { MentionsFold(hTag[..|hTag| - 1], a, b); }
  }

  lemma {:induction false} NamedFold(hs: seq<Header>, a: string, b: string)
    requires EqualFold(a, b)
    ensures Named(hs, a) == Named(hs, b)
  {
    if hs != [] { NamedFold(hs[..|hs| - 1], a, b); }
  }

  function Min(a: nat, b: nat): nat { if a < b then a else b }

  function Used(seen: map<string, nat>, lh: string): nat { if lh in seen then seen[lh] else 0 }

  // The map counts the instances used so far.
  ghost predicate Counts(seen: map<string, nat>, pre: seq<string>, headers: seq<Header>) {
    forall x {:trigger Mentions(pre, x)} :: Used(seen, ToLower(x)) == Min(Mentions(pre, x), |Named(headers, x)|)
  }

  lemma {:induction false} CountsNone(headers: seq<Header>)
    ensures Counts(map[], [], headers)
  {}

  lemma {:induction false} CountsStep(pre: seq<string>, h: string, headers: seq<Header>, seen: map<string, nat>,
      seen': map<string, nat>)
    requires Counts(seen, pre, headers)
    requires var i := Used(seen, ToLower(h));
      seen' == if i < |Named(headers, h)| then seen[ToLower(h) := i + 1] else seen
    ensures Counts(seen', pre + [h], headers)
  {
    assert (pre + [h])[..|pre|] == pre;
    forall x ensures Used(seen', ToLower(x)) == Min(Mentions(pre + [h], x), |Named(headers, x)|) {
      assert Used(seen, ToLower(x)) == Min(Mentions(pre, x), |Named(headers, x)|);
      if EqualFold(h, x) {
        MentionsFold(pre, h, x);
        NamedFold(headers, h, x);
      }
    }
  }

  lemma {:induction false} SelectedStep(hTag: seq<string>, j: nat, hs: seq<Header>, sigH: Header, seen: map<string,
      nat>)
    requires j < |hTag| && Counts(seen, hTag[..j], hs)
    ensures var i, all := Used(seen, ToLower(hTag[j])), Named(hs, hTag[j]);
      Selected(hTag[..j + 1], hs, sigH)
      == Selected(hTag[..j], hs, sigH) + Choice(if i < |all| then Some(all[|all| - 1 - i]) else None, sigH)
  {
    assert hTag[..j + 1][..j] == hTag[..j];
    assert Used(seen, ToLower(hTag[j])) == Min(Mentions(hTag[..j], hTag[j]), |Named(hs, hTag[j])|);
  }

  // One mention, as the loop handles it.
  lemma {:induction false} MentionStep(hTag: seq<string>, j: nat, hs: seq<Header>, sigH: Header, seen: map<string, nat>)
    requires j < |hTag| && Counts(seen, hTag[..j], hs)
    ensures var h := hTag[j]; var i, all := Used(seen, ToLower(h)), Named(hs, h);
      && Selected(hTag[..j + 1], hs, sigH)
         == Selected(hTag[..j], hs, sigH) + Choice(if i < |all| then Some(all[|all| - 1 - i]) else None, sigH)
      && Counts(if i < |all| then seen[ToLower(h) := i + 1] else seen, hTag[..j + 1], hs)
  {
    var h := hTag[j];
    var i := Used(seen, ToLower(h));
    SelectedStep(hTag, j, hs, sigH, seen);
    CountsStep(hTag[..j], h, hs, seen, if i < |Named(hs, h)| then seen[ToLower(h) := i + 1] else seen);
    SliceSnoc(hTag, j);
  }

  // headersToInclude, with the map of how many instances were used.
  method HeadersToInclude(sigH: Header, hTag: seq<string>, headers: seq<Header>) returns (included: seq<Header>)
    ensures included == Selected(hTag, headers, sigH)
  {
    var seen: map<string, nat> := map[];
    included := [];
    assert hTag[..0] == [];
    CountsNone(headers);
    for j := 0 to |hTag|
      invariant included == Selected(hTag[..j], headers, sigH)
      invariant Counts(seen, hTag[..j], headers)
    {
      var h := hTag[j];
      var all := FindAll(headers, h);
      var i := Used(seen, ToLower(h));
      MentionStep(hTag, j, headers, sigH, seen);
      if i >= |all| {
        continue;
      }
      seen := seen[ToLower(h) := i + 1];
      var selected := all[|all| - 1 - i];
      if selected == sigH {
        continue;
      }
      included := included + [selected];
    }
    assert hTag[..|hTag|] == hTag;
  }

  // ---------------------------------------------------------------- no instance twice

  // Where the instances of a name are.
  function Positions(hs: seq<Header>, name: string): (r: seq<nat>)
    ensures forall i :: 0 <= i < |r| ==> r[i] < |hs| && EqualFold(hs[r[i]].name, name)
    ensures forall i, j :: 0 <= i < j < |r| ==> r[i] < r[j]
  {
    if hs == [] then []
    else
      var n := |hs| - 1;
      var init := Positions(hs[..n], name);
      assert forall i :: 0 <= i < |init| ==> hs[..n][init[i]] == hs[init[i]];
      init + if EqualFold(hs[n].name, name) then [n] else []
  }

  lemma {:induction false} NamedAtPositions(hs: seq<Header>, name: string)
    ensures |Named(hs, name)| == |Positions(hs, name)|
    ensures forall i :: 0 <= i < |Named(hs, name)| ==> Named(hs, name)[i] == hs[Positions(hs, name)[i]]
  {
    if hs != [] {
      var n := |hs| - 1;
      NamedAtPositions(hs[..n], name);
      AtPositionsSnoc(hs, Named(hs[..n], name), Positions(hs[..n], name));
    }
  }

  lemma {:induction false} AtPositionsSnoc(hs: seq<Header>, named: seq<Header>, at: seq<nat>)
    requires hs != [] && |named| == |at|
    requires forall i :: 0 <= i < |at| ==> at[i] < |hs| - 1 && named[i] == hs[..|hs| - 1][at[i]]
    ensures var n := |hs| - 1;
      && (forall i :: 0 <= i < |at| ==> named[i] == hs[at[i]])
      && (forall i :: 0 <= i <= |at| ==> (named + [hs[n]])[i] == hs[(at + [n])[i]])
  {}

  // The position in the header that the j-th mention selects.
  function PickAt(hTag: seq<string>, j: nat, hs: seq<Header>): Option<nat>
    requires j < |hTag|
  {
    var p, at := Mentions(hTag[..j], hTag[j]), Positions(hs, hTag[j]);
    if p < |at| then Some(at[|at| - 1 - p]) else None
  }

  lemma {:induction false} PositionsFold(hs: seq<Header>, a: string, b: string)
    requires EqualFold(a, b)
    ensures Positions(hs, a) == Positions(hs, b)
  {
    if hs != [] { PositionsFold(hs[..|hs| - 1], a, b); }
  }

  lemma {:induction false} MentionsGrow(hTag: seq<string>, i: nat, j: nat, name: string)
    requires i < j <= |hTag| && EqualFold(hTag[i], name)
    ensures Mentions(hTag[..i], name) < Mentions(hTag[..j], name)
  {
    assert hTag[..j][..j - 1] == hTag[..j - 1];
    if i < j - 1 { MentionsGrow(hTag, i, j - 1, name); }
  }

  // The k-th mention of a name selects the k-th instance from the bottom, and no instance is selected twice.
  lemma {:induction false} PicksAreDistinct(hTag: seq<string>, i: nat, j: nat, hs: seq<Header>)
    requires i < j < |hTag|
    ensures PickAt(hTag, i, hs).Some? <==> Pick(hTag, i, hs).Some?
    ensures PickAt(hTag, i, hs).Some? ==> Pick(hTag, i, hs).value == hs[PickAt(hTag, i, hs).value]
    ensures PickAt(hTag, i, hs).Some? && PickAt(hTag, j, hs).Some? ==>
      PickAt(hTag, i, hs).value != PickAt(hTag, j, hs).value
  {
    NamedAtPositions(hs, hTag[i]);
    if PickAt(hTag, i, hs).Some? && PickAt(hTag, j, hs).Some? && EqualFold(hTag[i], hTag[j]) {
      PositionsFold(hs, hTag[i], hTag[j]);
      MentionsFold(hTag[..i], hTag[i], hTag[j]);
      MentionsGrow(hTag, i, j, hTag[j]);
    }
  }

  // ---------------------------------------------------------------- an inserted field

  function Insert(hs: seq<Header>, i: nat, x: Header): seq<Header>
    requires i <= |hs|
  {
    hs[..i] + [x] + hs[i..]
  }

  lemma {:induction false} NamedInsert(hs: seq<Header>, i: nat, x: Header, name: string)
    requires i <= |hs|
    ensures |Named(Insert(hs, i, x), name)| == |Named(hs, name)| + if EqualFold(x.name, name) then 1 else 0
  {
    assert hs == hs[..i] + hs[i..];
    NamedAppend(hs[..i], hs[i..], name);
    NamedAppend(hs[..i] + [x], hs[i..], name);
    NamedAppend(hs[..i], [x], name);
    assert [x][..0] == [];
    assert Named([x], name) == Named([], name) + if EqualFold(x.name, name) then [x] else [];
  }

  // The signature field itself is not among the names.
  predicate Apart(hTag: seq<string>, sigH: Header) {
    forall j :: 0 <= j < |hTag| ==> !EqualFold(hTag[j], sigH.name)
  }

  lemma {:induction false} PickApart(hTag: seq<string>, j: nat, hs: seq<Header>, sigH: Header)
    requires j < |hTag| && Apart(hTag, sigH)
    ensures Pick(hTag, j, hs).Some? ==> Pick(hTag, j, hs).value != sigH
  {
    NamedMembers(hs, hTag[j]);
  }

  // One more field named like x is noticed exactly when x's name is mentioned more often than it occurs.
  lemma {:induction false} InsertedFieldCounts(hTag: seq<string>, hs: seq<Header>, i: nat, x: Header, sigH: Header)
    requires i <= |hs| && Apart(hTag, sigH)
    ensures |Selected(hTag, Insert(hs, i, x), sigH)|
         == |Selected(hTag, hs, sigH)| + if Mentions(hTag, x.name) > |Named(hs, x.name)| then 1 else 0
  {
    if hTag != [] {
      var n := |hTag| - 1;
      var h := hTag[n];
      InsertedFieldCounts(hTag[..n], hs, i, x, sigH);
      PickApart(hTag, n, hs, sigH);
      PickApart(hTag, n, Insert(hs, i, x), sigH);
      NamedInsert(hs, i, x, h);
      if EqualFold(h, x.name) {
        MentionsFold(hTag[..n], h, x.name);
        NamedFold(hs, h, x.name);
      }
    }
  }
}
