/** The list of names that Sign writes, read by headersToInclude: the same fields, each group of one name reversed. */
module SignedSelection {
  import opened Text
  import opened Message
  import opened Signing
  import opened Selection
  import opened SigText

  // ---------------------------------------------------------------- the names are distinct

  // Length and end letters tell the signed names apart.
  function NameIndex(s: string): int {
    if s == "" then -1
    else
      var n, a, z := |s|, s[0], s[|s| - 1];
      if n == 4 then (if a == 'f' then 0 else 3)
      else if n == 8 then 1
      else if n == 7 then (if a == 's' then 2 else 12)
      else if n == 2 then (if a == 't' then 4 else 5)
      else if n == 11 then (if a == 'i' then 10 else if z == 'e' then 6 else 7)
      else if n == 9 then (if z == 'o' then 8 else if z == 'c' then 9 else if z == 'p' then 13 else 16)
      else if n == 10 then (if a == 'r' then 11 else if a == 'l' then 17 else 19)
      else if n == 16 then 14
      else if n == 14 then (if a == 'l' then 15 else -1)
      else if n == 12 then 18 else -1
  }

  predicate Word(s: string) {
    s != "" && forall i :: 0 <= i < |s| ==> 'a' <= s[i] <= 'z' || 'A' <= s[i] <= 'Z' || s[i] == '-'
  }

  lemma {:induction false} WordIsPlain(s: string)
    requires Word(s)
    ensures PlainName(s)
  {}

  lemma {:induction false} Words1()
    ensures Word("From") && Word("Reply-To") && Word("Subject") && Word("Date") && Word("To") && Word("Cc")
    ensures Word("Resent-Date") && Word("Resent-From") && Word("Resent-To") && Word("Resent-Cc")
  {}

  lemma {:induction false} Words2()
    ensures Word("In-Reply-To") && Word("References") && Word("List-Id") && Word("List-Help") && Word("List-Unsubscribe")
  {}

  lemma {:induction false} Words3()
    ensures Word("List-Subscribe") && Word("List-Post") && Word("List-Owner") && Word("List-Archive") && Word("Message-ID")
  {}

  lemma {:induction false} PlainSignName(i: nat)
    requires i < |HeadersToSign|
    ensures PlainName(HeadersToSign[i])
  {
    Words1();
    Words2();
    Words3();
    WordIsPlain(HeadersToSign[i]);
  }

  lemma {:induction false} SignNameIndex(i: nat)
    requires i < |HeadersToSign|
    ensures NameIndex(ToLower(HeadersToSign[i])) == i
  {
    var low := ToLower(HeadersToSign[i]);
    if i < 5 {
    } else if i < 10 {
    } else if i < 15 {
    } else {
    }
  }

  lemma {:induction false} SignName(i: nat)
    requires i < |HeadersToSign|
    ensures PlainName(HeadersToSign[i]) && NameIndex(ToLower(HeadersToSign[i])) == i
    ensures !EqualFold(HeadersToSign[i], SIG_NAME)
  {
    PlainSignName(i);
    SignNameIndex(i);
    var sig := ToLower(SIG_NAME);
    assert |sig| == 14 && sig[0] == 'd' && NameIndex(sig) == -1;
  }

  predicate Distinct(names: seq<string>) {
    forall i, j :: 0 <= i < j < |names| ==> !EqualFold(names[i], names[j])
  }

  lemma {:induction false} SignNamesDistinct()
    ensures Distinct(HeadersToSign)
  {
    forall i, j | 0 <= i < j < |HeadersToSign| ensures !EqualFold(HeadersToSign[i], HeadersToSign[j]) {
      SignName(i);
      SignName(j);
    }
  }

  // ---------------------------------------------------------------- groups

  function Rev<T>(s: seq<T>): (r: seq<T>)
    ensures |r| == |s| && forall i :: 0 <= i < |s| ==> r[i] == s[|s| - 1 - i]
  {
    seq(|s|, i requires 0 <= i < |s| => s[|s| - 1 - i])
  }

  function ReversedFields(names: seq<string>, hs: seq<Header>): seq<Header> {
    if names == [] then []
    else ReversedFields(names[..|names| - 1], hs) + Rev(Named(hs, names[|names| - 1]))
  }

  lemma {:induction false} MentionsAppend(a: seq<string>, b: seq<string>, name: string)
    ensures Mentions(a + b, name) == Mentions(a, name) + Mentions(b, name)
  {
    if b == [] {
      assert a + b == a;
    } else {
      assert (a + b)[..|a + b| - 1] == a + b[..|b| - 1];
      MentionsAppend(a, b[..|b| - 1], name);
    }
  }

  lemma {:induction false} MentionsRepeat(n: string, c: nat, name: string)
    ensures Mentions(Repeat(n, c), name) == if EqualFold(n, name) then c else 0
  {
    if c > 0 {
      assert Repeat(n, c)[..c - 1] == Repeat(n, c - 1);
      MentionsRepeat(n, c - 1, name);
    }
  }

  lemma {:induction false} OccurringSnoc(names: seq<string>, hs: seq<Header>, name: string)
    requires names != []
    ensures var n := |names| - 1;
      Mentions(Occurring(names, hs), name) == Mentions(Occurring(names[..n], hs), name)
        + if EqualFold(names[n], name) then |Named(hs, name)| else 0
  {
    var n := |names| - 1;
    MentionsAppend(Occurring(names[..n], hs), Repeat(names[n], |Named(hs, names[n])|), name);
    MentionsRepeat(names[n], |Named(hs, names[n])|, name);
    if EqualFold(names[n], name) { NamedFold(hs, names[n], name); }
  }

  lemma {:induction false} MentionsNone(names: seq<string>, hs: seq<Header>, name: string)
    requires forall i :: 0 <= i < |names| ==> !EqualFold(names[i], name)
    ensures Mentions(Occurring(names, hs), name) == 0
  {
    if names != [] {
      OccurringSnoc(names, hs, name);
      MentionsNone(names[..|names| - 1], hs, name);
    }
  }

  // Each name is mentioned as often as it occurs in the message.
  lemma {:induction false} MentionsOccurring(names: seq<string>, hs: seq<Header>, name: string, i: nat)
    requires Distinct(names) && i < |names| && EqualFold(names[i], name)
    ensures Mentions(Occurring(names, hs), name) == |Named(hs, name)|
  {
    var n := |names| - 1;
    OccurringSnoc(names, hs, name);
    if i == n {
      LastIsNew(names, name);
      MentionsNone(names[..n], hs, name);
    } else {
      OthersDiffer(names, i, name);
      MentionsOccurring(names[..n], hs, name, i);
    }
  }

  lemma {:induction false} OthersDiffer(names: seq<string>, i: nat, name: string)
    requires Distinct(names) && i < |names| - 1 && EqualFold(names[i], name)
    ensures !EqualFold(names[|names| - 1], name) && Distinct(names[..|names| - 1])
  {
    assert !EqualFold(names[i], names[|names| - 1]);
  }

  lemma {:induction false} LastIsNew(names: seq<string>, name: string)
    requires Distinct(names) && names != [] && EqualFold(names[|names| - 1], name)
    ensures var init := names[..|names| - 1]; forall i :: 0 <= i < |init| ==> !EqualFold(init[i], name)
  {
    var n := |names| - 1;
    forall i | 0 <= i < n ensures !EqualFold(names[..n][i], name) { assert !EqualFold(names[i], names[n]); }
  }

  lemma {:induction false} SelectedSnoc(pre: seq<string>, h: string, hs: seq<Header>, sigH: Header)
    requires Apart(pre + [h], sigH)
    ensures var all, p := Named(hs, h), Mentions(pre, h);
      Selected(pre + [h], hs, sigH) == Selected(pre, hs, sigH) + if p < |all| then [all[|all| - 1 - p]] else []
  {
    assert (pre + [h])[..|pre|] == pre;
    PickApart(pre + [h], |pre|, hs, sigH);
  }

  lemma {:induction false} ApartAppend(a: seq<string>, b: seq<string>, sigH: Header)
    requires Apart(a, sigH) && Apart(b, sigH)
    ensures Apart(a + b, sigH)
  {}

  lemma {:induction false} AppendOneMore<T>(base: seq<T>, r: seq<T>, k: nat)
    requires k < |r|
    ensures (base + r[..k]) + [r[k]] == base + r[..k + 1]
  {
    SliceSnoc(r, k);
    Assoc(base, r[..k], [r[k]]);
  }

  lemma {:induction false} SelectedGroup(pre: seq<string>, n: string, c: nat, hs: seq<Header>, sigH: Header)
    requires c <= |Named(hs, n)| && Mentions(pre, n) == 0 && Apart(pre, sigH) && !EqualFold(n, sigH.name)
    ensures Selected(pre + Repeat(n, c), hs, sigH) == Selected(pre, hs, sigH) + Rev(Named(hs, n))[..c]
  {
    if c == 0 {
      GroupStart(pre, n, hs, sigH);
    } else {
      SelectedGroup(pre, n, c - 1, hs, sigH);
      SelectedOneMore(pre, n, c - 1, hs, sigH);
      GroupGrows(Selected(pre, hs, sigH), Rev(Named(hs, n)), c - 1, Selected(pre + Repeat(n, c - 1), hs, sigH));
    }
  }

  lemma {:induction false} GroupStart(pre: seq<string>, n: string, hs: seq<Header>, sigH: Header)
    ensures Selected(pre + Repeat(n, 0), hs, sigH) == Selected(pre, hs, sigH) + Rev(Named(hs, n))[..0]
  {
    RepeatNone(pre, n);
    NothingMore(Selected(pre, hs, sigH), Rev(Named(hs, n)));
  }

  lemma {:induction false} GroupGrows<T>(base: seq<T>, r: seq<T>, k: nat, x: seq<T>)
    requires k < |r| && x == base + r[..k]
    ensures x + [r[k]] == base + r[..k + 1]
  {
    AppendOneMore(base, r, k);
  }

  lemma {:induction false} RepeatNone(pre: seq<string>, n: string)
    ensures pre + Repeat(n, 0) == pre
  {}

  lemma {:induction false} NothingMore<T>(base: seq<T>, r: seq<T>)
    ensures base + r[..0] == base
  {}

  lemma {:induction false} RepeatSnoc(pre: seq<string>, n: string, c: nat)
    ensures pre + Repeat(n, c + 1) == pre + Repeat(n, c) + [n]
  {
    Assoc(pre, Repeat(n, c), [n]);
  }

  lemma {:induction false} SelectedOneMore(pre: seq<string>, n: string, c: nat, hs: seq<Header>, sigH: Header)
    requires c < |Named(hs, n)| && Mentions(pre, n) == 0 && Apart(pre, sigH) && !EqualFold(n, sigH.name)
    ensures Selected(pre + Repeat(n, c + 1), hs, sigH)
         == Selected(pre + Repeat(n, c), hs, sigH) + [Rev(Named(hs, n))[c]]
  {
    var q := pre + Repeat(n, c);
    RepeatSnoc(pre, n, c);
    RepeatFacts(pre, n, c, sigH);
    SelectedNext(q, n, c, hs, sigH);
  }

  lemma {:induction false} SelectedNext(q: seq<string>, n: string, c: nat, hs: seq<Header>, sigH: Header)
    requires Mentions(q, n) == c < |Named(hs, n)| && Apart(q + [n], sigH)
    ensures Selected(q + [n], hs, sigH) == Selected(q, hs, sigH) + [Rev(Named(hs, n))[c]]
  {
    SelectedSnoc(q, n, hs, sigH);
    RevAt(Named(hs, n), c);
  }

  lemma {:induction false} RevAt<T>(s: seq<T>, c: nat)
    requires c < |s|
    ensures Rev(s)[c] == s[|s| - 1 - c]
  {}

  lemma {:induction false} RepeatFacts(pre: seq<string>, n: string, c: nat, sigH: Header)
    requires Mentions(pre, n) == 0 && Apart(pre, sigH) && !EqualFold(n, sigH.name)
    ensures Mentions(pre + Repeat(n, c), n) == c && Apart(pre + Repeat(n, c) + [n], sigH)
  {
    MentionsAppend(pre, Repeat(n, c), n);
    MentionsRepeat(n, c, n);
    ApartAppend(pre, Repeat(n, c), sigH);
    ApartAppend(pre + Repeat(n, c), [n], sigH);
  }

  lemma {:induction false} SelectedOccurring(names: seq<string>, hs: seq<Header>, sigH: Header)
    requires Distinct(names) && Apart(names, sigH)
    ensures Apart(Occurring(names, hs), sigH)
    ensures Selected(Occurring(names, hs), hs, sigH) == ReversedFields(names, hs)
  {
    if names != [] {
      var n := |names| - 1;
      SelectedOccurring(names[..n], hs, sigH);
      LastIsNew(names, names[n]);
      MentionsNone(names[..n], hs, names[n]);
      assert forall i :: 0 <= i < n ==> names[..n][i] == names[i];
      SelectedGroup(Occurring(names[..n], hs), names[n], |Named(hs, names[n])|, hs, sigH);
      ApartAppend(Occurring(names[..n], hs), Repeat(names[n], |Named(hs, names[n])|), sigH);
      assert Rev(Named(hs, names[n]))[..|Named(hs, names[n])|] == Rev(Named(hs, names[n]));
    }
  }

  // Names mentioned once more than they occur select nothing more.
  lemma {:induction false} ExtrasSelectNothing(pre: seq<string>, extra: seq<string>, hs: seq<Header>, sigH: Header)
    requires Apart(pre, sigH) && Apart(extra, sigH)
    requires forall i :: 0 <= i < |extra| ==> Mentions(pre, extra[i]) >= |Named(hs, extra[i])|
    ensures Apart(pre + extra, sigH)
    ensures Selected(pre + extra, hs, sigH) == Selected(pre, hs, sigH)
  {
    if extra == [] {
      assert pre + extra == pre;
    } else {
      var n := |extra| - 1;
      ExtrasSelectNothing(pre, extra[..n], hs, sigH);
      LastOf(pre, extra);
      SelectedSnoc(pre + extra[..n], extra[n], hs, sigH);
      MentionsAppend(pre, extra[..n], extra[n]);
    }
  }

  lemma {:induction false} ExtraIsSigned(i: nat)
    requires i < |ExtraHeaders|
    ensures exists k :: 0 <= k < |HeadersToSign| && HeadersToSign[k] == ExtraHeaders[i]
  {
    var k := [0, 2, 3, 4, 5, 19][i];
    assert HeadersToSign[k] == ExtraHeaders[i];
  }

  lemma {:induction false} SignedApart(sigH: Header)
    requires sigH.name == SIG_NAME
    ensures Apart(HeadersToSign, sigH) && Apart(ExtraHeaders, sigH)
  {
    forall i | 0 <= i < |HeadersToSign| ensures !EqualFold(HeadersToSign[i], sigH.name) { SignName(i); }
    forall i | 0 <= i < |ExtraHeaders| ensures !EqualFold(ExtraHeaders[i], sigH.name) { ExtraIsSigned(i); }
  }

  // Every extra name is mentioned exactly once more than it occurs.
  lemma {:induction false} ExtraMentions(hs: seq<Header>, i: nat)
    requires i < |ExtraHeaders|
    ensures Mentions(Occurring(HeadersToSign, hs), ExtraHeaders[i]) == |Named(hs, ExtraHeaders[i])|
    ensures Mentions(HTag(hs), ExtraHeaders[i]) > |Named(hs, ExtraHeaders[i])|
  {
    SignNamesDistinct();
    ExtraIsSigned(i);
    var k :| 0 <= k < |HeadersToSign| && HeadersToSign[k] == ExtraHeaders[i];
    MentionsOccurring(HeadersToSign, hs, ExtraHeaders[i], k);
    MentionsAppend(Occurring(HeadersToSign, hs), ExtraHeaders, ExtraHeaders[i]);
    assert ExtraHeaders[..|ExtraHeaders|] == ExtraHeaders;
    MentionsGrow(ExtraHeaders, i, |ExtraHeaders|, ExtraHeaders[i]);
  }

  // On the list Sign writes, headersToInclude selects exactly the fields Sign hashed, each group reversed.
  lemma {:induction false} SelectedOnSigned(hs: seq<Header>, sigH: Header)
    requires sigH.name == SIG_NAME
    ensures Apart(HTag(hs), sigH)
    ensures Selected(HTag(hs), hs, sigH) == ReversedFields(HeadersToSign, hs)
  {
    SignNamesDistinct();
    SignedApart(sigH);
    SelectedOccurring(HeadersToSign, hs, sigH);
    forall i | 0 <= i < |ExtraHeaders|
      ensures Mentions(Occurring(HeadersToSign, hs), ExtraHeaders[i]) >= |Named(hs, ExtraHeaders[i])|
    {
      ExtraMentions(hs, i);
    }
    ExtrasSelectNothing(Occurring(HeadersToSign, hs), ExtraHeaders, hs, sigH);
  }

  // After signing, one more From, Subject, Date, To, Cc or Message-ID anywhere lengthens the selection.
  lemma {:induction false} AddedFieldIsSelected(hs: seq<Header>, at: nat, x: Header, i: nat, sigH: Header)
    requires at <= |hs| && i < |ExtraHeaders| && EqualFold(x.name, ExtraHeaders[i]) && sigH.name == SIG_NAME
    ensures |Selected(HTag(hs), Insert(hs, at, x), sigH)| == |Selected(HTag(hs), hs, sigH)| + 1
  {
    SelectedOnSigned(hs, sigH);
    InsertedFieldCounts(HTag(hs), hs, at, x, sigH);
    ExtraMentions(hs, i);
    MentionsFold(HTag(hs), x.name, ExtraHeaders[i]);
    NamedFold(hs, x.name, ExtraHeaders[i]);
  }

  // ---------------------------------------------------------------- lower case, and the signature in front

  lemma {:induction false} MentionsLower(hTag: seq<string>, name: string)
    ensures Mentions(LowerAll(hTag), ToLower(name)) == Mentions(hTag, name)
  {
    if hTag != [] {
      var n := |hTag| - 1;
      assert LowerAll(hTag)[..n] == LowerAll(hTag[..n]);
      MentionsLower(hTag[..n], name);
      LowerTwice(hTag[n]);
      LowerTwice(name);
    }
  }

  lemma {:induction false} PickLower(hTag: seq<string>, n: nat, hs: seq<Header>, sigH: Header)
    requires n < |hTag| && Apart(hTag, sigH)
    ensures Pick(LowerAll(hTag), n, [sigH] + hs) == Pick(hTag, n, hs)
  {
    assert LowerAll(hTag)[..n] == LowerAll(hTag[..n]);
    MentionsLower(hTag[..n], hTag[n]);
    LowerTwice(hTag[n]);
    NamedFold([sigH] + hs, LowerAll(hTag)[n], hTag[n]);
    NamedAppend([sigH], hs, hTag[n]);
    NamedOther(sigH, hTag[n]);
    assert [] + Named(hs, hTag[n]) == Named(hs, hTag[n]);
  }

  // Reading the lower-cased names next to the new field gives the same selection.
  lemma {:induction false} SelectedLower(hTag: seq<string>, hs: seq<Header>, sigH: Header)
    requires Apart(hTag, sigH)
    ensures Selected(LowerAll(hTag), [sigH] + hs, sigH) == Selected(hTag, hs, sigH)
  {
    if hTag != [] {
      var n := |hTag| - 1;
      assert LowerAll(hTag)[..n] == LowerAll(hTag[..n]);
      SelectedLower(hTag[..n], hs, sigH);
      PickLower(hTag, n, hs, sigH);
    }
  }

  lemma {:induction false} NamedOther(h: Header, name: string)
    requires !EqualFold(name, h.name)
    ensures Named([h], name) == []
  {
    assert [h][..0] == [];
  }
}
