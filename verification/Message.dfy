/** internal/dkim/message.go: an RFC 822 message as a list of header fields and a body. */
module Message {
  import opened Text

  datatype Header = Header(name: string, value: string, source: string)
  datatype ParseError = BadContinuation | NoColon
  datatype Parsed = Parsed(headers: seq<Header>, body: string)

  predicate IsContinuation(line: string) { |line| > 0 && IsWsp(line[0]) }

  function ParseHeader(line: string): (r: Result<Header, ParseError>)
    ensures r.Ok? <==> !Without(line, ':')
    ensures r.Ok? ==> r.value.source == line == r.value.name + ":" + r.value.value && Without(r.value.name, ':')
  {
    match Cut(line, ':')
    case None => Err(NoColon)
    case Some(nv) => Ok(Header(nv.0, nv.1, line))
  }

  // The meaning of one non-empty line after the header fields `hs`.
  function AddLine(hs: seq<Header>, line: string): Result<seq<Header>, ParseError> {
    if IsContinuation(line) then
      if hs == [] then Err(BadContinuation)
      else
        var h := hs[|hs| - 1];
        Ok(hs[..|hs| - 1] + [Header(h.name, h.value + CRLF + line, h.source + CRLF + line)])
    else
      match ParseHeader(line)
      case Err(e) => Err(e)
      case Ok(h) => Ok(hs + [h])
  }

  function Fields(lines: seq<string>): Result<seq<Header>, ParseError> {
    if lines == [] then Ok([])
    else
      match Fields(lines[..|lines| - 1])
      case Err(e) => Err(e)
      case Ok(hs) => AddLine(hs, lines[|lines| - 1])
  }

  // Index of the first empty line, or |lines|.
  function FirstEmpty(lines: seq<string>): (k: nat)
    ensures k <= |lines| && (k < |lines| ==> lines[k] == "")
    ensures forall i :: 0 <= i < k ==> lines[i] != ""
  {
    if lines == [] || lines[0] == "" then 0 else 1 + FirstEmpty(lines[1..])
  }

  predicate HasEmptyLine(message: string) { "" in SplitCrlf(message) }

  // The lines after the end of the header; without an empty line the code leaves eoh at 0.
  function BodyLines(lines: seq<string>): seq<string>
    requires lines != []
  {
    var k := FirstEmpty(lines);
    if k < |lines| then lines[k + 1..] else lines[1..]
  }

  function ParseLines(lines: seq<string>): Result<Parsed, ParseError>
    requires lines != []
  {
    match Fields(lines[..FirstEmpty(lines)])
    case Err(e) => Err(e)
    case Ok(hs) => Ok(Parsed(hs, JoinCrlf(BodyLines(lines))))
  }

  function Parse(message: string): Result<Parsed, ParseError> { ParseLines(SplitCrlf(message)) }

  lemma {:induction false} FieldsErr(lines: seq<string>, i: nat)
    requires i <= |lines| && Fields(lines[..i]).Err?
    ensures Fields(lines) == Fields(lines[..i])
  {
    if i < |lines| {
      assert lines[..|lines| - 1][..i] == lines[..i];
      FieldsErr(lines[..|lines| - 1], i);
    } else {
      assert lines[..i] == lines;
    }
  }

  lemma {:induction false} FirstEmptyUnique(lines: seq<string>, k: nat)
    requires k <= |lines| && (k < |lines| ==> lines[k] == "") && forall i :: 0 <= i < k ==> lines[i] != ""
    ensures FirstEmpty(lines) == k
  {
  }

  lemma {:induction false} FieldsStep(lines: seq<string>, k: nat, i: nat, hs: seq<Header>)
    requires i < k <= |lines| && Fields(lines[..i]) == Ok(hs)
    ensures Fields(lines[..i + 1]) == AddLine(hs, lines[i])
    ensures AddLine(hs, lines[i]).Err? ==> Fields(lines[..k]) == AddLine(hs, lines[i])
  {
    assert lines[..i + 1][..i] == lines[..i];
    if AddLine(hs, lines[i]).Err? {
      assert lines[..k][..i + 1] == lines[..i + 1];
      FieldsErr(lines[..k], i + 1);
    }
  }

  lemma {:induction false} UpdateLast(hs: seq<Header>, h: Header)
    requires hs != []
    ensures hs[|hs| - 1 := h] == hs[..|hs| - 1] + [h]
  {}

  lemma {:induction false} ParsedLines(lines: seq<string>, i: nat, hs: seq<Header>)
    requires i == FirstEmpty(lines) && lines != [] && Fields(lines[..i]) == Ok(hs)
    ensures ParseLines(lines) == Ok(Parsed(hs, JoinCrlf(lines[(if i < |lines| then i else 0) + 1..])))
  {}

  // parseMessage: the loop over the lines, extending the last header in place.
  method ParseMessage(message: string) returns (r: Result<Parsed, ParseError>)
    ensures r == Parse(message)
  {
    var headers: seq<Header> := [];
    var lines := SplitCrlf(message);
    var eoh := 0;
    var i := 0;
    ghost var k := FirstEmpty(lines);
    while i < |lines| && lines[i] != ""
      invariant 0 <= i <= k
      invariant Fields(lines[..i]) == Ok(headers)
    {
      var line := lines[i];
      FieldsStep(lines, k, i, headers);
      if IsContinuation(line) {
        if |headers| == 0 {
          return Err(BadContinuation);
        }
        var n := |headers| - 1;
        var h := headers[n];
        var h' := Header(h.name, h.value + CRLF + line, h.source + CRLF + line);
        UpdateLast(headers, h');
        headers := headers[n := h'];
      } else {
        var h := ParseHeader(line);
        if h.Err? {
          return Err(h.error);
        }
        headers := headers + [h.value];
      }
      i := i + 1;
    }
    if i < |lines| {
      eoh := i;
    }
    ParsedLines(lines, i, headers);
    return Ok(Parsed(headers, JoinCrlf(lines[eoh + 1..])));
  }

  // ---------------------------------------------------------------- FindAll

  function Named(hs: seq<Header>, name: string): seq<Header> {
    if hs == [] then []
    else Named(hs[..|hs| - 1], name) + if EqualFold(hs[|hs| - 1].name, name) then [hs[|hs| - 1]] else []
  }

  lemma {:induction false} NamedMembers(hs: seq<Header>, name: string)
    ensures forall h :: h in Named(hs, name) <==> h in hs && EqualFold(h.name, name)
  {
    if hs != [] {
      NamedMembers(hs[..|hs| - 1], name);
      assert hs == hs[..|hs| - 1] + [hs[|hs| - 1]];
    }
  }

  method FindAll(hs: seq<Header>, name: string) returns (r: seq<Header>)
    ensures r == Named(hs, name)
  {
    r := [];
    for i := 0 to |hs|
      invariant r == Named(hs[..i], name)
    {
      assert hs[..i + 1][..i] == hs[..i];
      if EqualFold(hs[i].name, name) {
        r := r + [hs[i]];
      }
    }
    assert hs[..|hs|] == hs;
  }

  lemma {:induction false} NamedAppend(a: seq<Header>, b: seq<Header>, name: string)
    ensures Named(a + b, name) == Named(a, name) + Named(b, name)
  {
    if b == [] {
      assert a + b == a;
    } else {
      assert (a + b)[..|a + b| - 1] == a + b[..|b| - 1];
      NamedAppend(a, b[..|b| - 1], name);
    }
  }

  // ---------------------------------------------------------------- parsing loses nothing

  function Terminated(lines: seq<string>): string {
    if lines == [] then "" else Terminated(lines[..|lines| - 1]) + lines[|lines| - 1] + CRLF
  }

  function Sources(hs: seq<Header>): seq<string> { seq(|hs|, i requires 0 <= i < |hs| => hs[i].source) }

  // Write the parsed message back.
  function Rebuild(p: Parsed): string { Terminated(Sources(p.headers)) + CRLF + p.body }

  lemma {:induction false} TerminatedSnoc(xs: seq<string>, x: string)
    ensures Terminated(xs + [x]) == Terminated(xs) + x + CRLF
  {
    assert (xs + [x])[..|xs|] == xs;
  }

  lemma {:induction false} SourcesSnoc(hs: seq<Header>, h: Header)
    ensures Sources(hs + [h]) == Sources(hs) + [h.source]
  {}

  lemma {:induction false} AddLineKeepsText(hs: seq<Header>, l: string)
    requires AddLine(hs, l).Ok?
    ensures Terminated(Sources(AddLine(hs, l).value)) == Terminated(Sources(hs)) + l + CRLF
  {
    var r := AddLine(hs, l).value;
    if IsContinuation(l) {
      var init, h, h' := hs[..|hs| - 1], hs[|hs| - 1], r[|hs| - 1];
      assert hs == init + [h] && r == init + [h'];
      SourcesSnoc(init, h);
      SourcesSnoc(init, h');
      TerminatedSnoc(Sources(init), h.source);
      TerminatedSnoc(Sources(init), h'.source);
      Assoc(Terminated(Sources(init)), h.source + CRLF, l);
      Assoc(Terminated(Sources(init)), h.source, CRLF);
    } else {
      SourcesSnoc(hs, ParseHeader(l).value);
      TerminatedSnoc(Sources(hs), l);
    }
  }

  lemma {:induction false} FieldsKeepText(lines: seq<string>)
    requires Fields(lines).Ok?
    ensures Terminated(Sources(Fields(lines).value)) == Terminated(lines)
  {
    if lines != [] {
      FieldsKeepText(lines[..|lines| - 1]);
      AddLineKeepsText(Fields(lines[..|lines| - 1]).value, lines[|lines| - 1]);
    }
  }

  lemma {:induction false} JoinTerminated(a: seq<string>, b: seq<string>)
    requires b != []
    ensures JoinCrlf(a + b) == Terminated(a) + JoinCrlf(b)
  {
    if a == [] {
      assert a + b == b;
    } else {
      var n := |a| - 1;
      assert a + b == a[..n] + ([a[n]] + b);
      JoinTerminated(a[..n], [a[n]] + b);
      assert ([a[n]] + b)[1..] == b;
      assert Terminated(a[..n]) + (a[n] + CRLF + JoinCrlf(b)) == (Terminated(a[..n]) + a[n] + CRLF) + JoinCrlf(b);
    }
  }

  lemma {:induction false} TextAtEmptyLine(lines: seq<string>, k: nat)
    requires k < |lines| && lines[k] == ""
    ensures JoinCrlf(lines) == Terminated(lines[..k]) + if k < |lines| - 1 then CRLF + JoinCrlf(lines[k + 1..]) else ""
  {
    assert lines == lines[..k] + lines[k..];
    JoinTerminated(lines[..k], lines[k..]);
    if k < |lines| - 1 {
      assert lines[k..][1..] == lines[k + 1..];
      assert "" + CRLF == CRLF;
    }
  }

  // A message is the text of its fields, an empty line and the body, exactly when the line break that ends
  // the empty line is there; when the message stops before it, that CRLF is all that is missing.
  lemma {:induction false} Lossless(message: string)
    requires Parse(message).Ok? && HasEmptyLine(message)
    ensures var lines := SplitCrlf(message);
      && (Rebuild(Parse(message).value) == message <==> FirstEmpty(lines) < |lines| - 1)
      && (FirstEmpty(lines) == |lines| - 1 ==> Rebuild(Parse(message).value) == message + CRLF)
  {
    var lines := SplitCrlf(message);
    var k := FirstEmpty(lines);
    JoinSplit(message);
    TextAtEmptyLine(lines, k);
    RebuiltText(lines, k);
  }

  lemma {:induction false} RebuiltText(lines: seq<string>, k: nat)
    requires lines != [] && ParseLines(lines).Ok? && k == FirstEmpty(lines) < |lines|
    ensures var t := Terminated(lines[..k]);
      Rebuild(ParseLines(lines).value) == if k < |lines| - 1 then t + (CRLF + JoinCrlf(lines[k + 1..])) else t + CRLF
  {
    FieldsKeepText(lines[..k]);
    Assoc(Terminated(lines[..k]), CRLF, JoinCrlf(lines[k + 1..]));
    if k == |lines| - 1 {
      assert CRLF + "" == CRLF;
    }
  }

  // So parsing identifies two messages: a header block with and without the break that ends its empty line.
  lemma {:induction false} ForgetsLastBreak(x: string)
    requires !HasEmptyLine(x)
    ensures Parse(x + CRLF + "") == Parse(x + CRLF + CRLF)
  {
    SplitAppend(x, "");
    SplitAppend(x, CRLF);
    assert SplitCrlf(CRLF) == [""] + SplitCrlf(CRLF[2..]) == ["", ""];
    SameParse(SplitCrlf(x));
  }

  lemma {:induction false} SameParse(lines: seq<string>)
    requires "" !in lines
    ensures ParseLines(lines + [""]) == ParseLines(lines + ["", ""])
  {
    var a, b := lines + [""], lines + ["", ""];
    FirstEmptyUnique(a, |lines|);
    FirstEmptyUnique(b, |lines|);
    assert a[..|lines|] == lines == b[..|lines|];
    assert a[|lines| + 1..] == [] && b[|lines| + 1..] == [""];
  }

  // ---------------------------------------------------------------- a header put in front

  // Every line of v after the first continues the header.
  predicate Folded(v: string) {
    var l := SplitCrlf(v);
    forall k :: 1 <= k < |l| ==> IsContinuation(l[k])
  }

  predicate FieldName(name: string) {
    Without(name, ':') && Without(name, '\n') && (name == "" || !IsWsp(name[0]))
  }

  lemma {:induction false} SplitPrefix(p: string, v: string)
    requires Without(p, '\n') && (p == "" || p[|p| - 1] != '\r')
    ensures SplitCrlf(p + v) == [p + SplitCrlf(v)[0]] + SplitCrlf(v)[1..]
  {
    if p == "" {
      assert p + v == v && p + SplitCrlf(v)[0] == SplitCrlf(v)[0];
      assert [SplitCrlf(v)[0]] + SplitCrlf(v)[1..] == SplitCrlf(v);
    } else {
      assert (p + v)[1..] == p[1..] + v;
      SplitPrefix(p[1..], v);
      assert !StartsCrlf(p + v) by { if |p| > 1 { assert p[1] != '\n'; } }
      assert [p[0]] + (p[1..] + SplitCrlf(v)[0]) == p + SplitCrlf(v)[0];
    }
  }

  // One header line and its continuations make one field; `ls` are the split value.
  lemma {:induction false} FieldOfLines(name: string, ls: seq<string>)
    requires FieldName(name) && ls != []
    requires forall k :: 1 <= k < |ls| ==> IsContinuation(ls[k])
    ensures Fields([name + ":" + ls[0]] + ls[1..])
         == Ok([Header(name, JoinCrlf(ls), name + ":" + JoinCrlf(ls))])
  {
    var lines := [name + ":" + ls[0]] + ls[1..];
    var n := |ls| - 1;
    if n == 0 {
      OneLineField(name, ls[0]);
      assert ls[1..] == [];
      assert lines == [name + ":" + ls[0]];
    } else {
      var init := ls[..n];
      FieldOfLines(name, init);
      assert lines[..n] == [name + ":" + init[0]] + init[1..];
      assert lines[n] == ls[n];
      assert ls == init + [ls[n]];
      ContinueField(name, init, ls[n]);
    }
  }

  lemma {:induction false} OneLineField(name: string, value: string)
    requires FieldName(name)
    ensures Fields([name + ":" + value]) == Ok([Header(name, value, name + ":" + value)])
  {
    var l := name + ":" + value;
    assert [l][..0] == [];
    CutAt(name, value, ':');
    var h := Header(name, value, l);
    assert [] + [h] == [h];
  }

  lemma {:induction false} ContinueField(name: string, init: seq<string>, line: string)
    requires init != [] && IsContinuation(line)
    ensures var h := Header(name, JoinCrlf(init), name + ":" + JoinCrlf(init)); var ls := init + [line];
      AddLine([h], line) == Ok([Header(name, JoinCrlf(ls), name + ":" + JoinCrlf(ls))])
  {
    JoinAppend(init, [line]);
    Assoc(name + ":", JoinCrlf(init) + CRLF, line);
    Assoc(name + ":", JoinCrlf(init), CRLF);
    var h := Header(name, JoinCrlf(init), name + ":" + JoinCrlf(init));
    var ls := init + [line];
    var h' := Header(name, JoinCrlf(ls), name + ":" + JoinCrlf(ls));
    assert [h][..0] + [h'] == [h'];
  }

  lemma {:induction false} AddLinePrepend(a: seq<Header>, hs: seq<Header>, l: string)
    requires AddLine(hs, l).Ok?
    ensures AddLine(a + hs, l) == Ok(a + AddLine(hs, l).value)
  {
    if IsContinuation(l) {
      assert (a + hs)[..|a + hs| - 1] == a + hs[..|hs| - 1];
      Assoc(a, hs[..|hs| - 1], [AddLine(hs, l).value[|hs| - 1]]);
    } else {
      Assoc(a, hs, [ParseHeader(l).value]);
    }
  }

  lemma {:induction false} FieldsPrepend(front: seq<string>, lines: seq<string>)
    requires Fields(front).Ok? && Fields(lines).Ok?
    ensures Fields(front + lines) == Ok(Fields(front).value + Fields(lines).value)
  {
    if lines == [] {
      assert front + lines == front && Fields(front).value + [] == Fields(front).value;
    } else {
      var n := |lines| - 1;
      FieldsPrepend(front, lines[..n]);
      assert (front + lines)[..|front + lines| - 1] == front + lines[..n];
      AddLinePrepend(Fields(front).value, Fields(lines[..n]).value, lines[n]);
    }
  }

  lemma {:induction false} LinesPrepended(name: string, v: string, m: string)
    requires FieldName(name)
    ensures var ls := SplitCrlf(v);
      SplitCrlf(name + ":" + v + CRLF + m) == ([name + ":" + ls[0]] + ls[1..]) + SplitCrlf(m)
  {
    SplitAppend(name + ":" + v, m);
    SplitPrefix(name + ":", v);
  }

  lemma {:induction false} EmptyLinePrepended(front: seq<string>, lines: seq<string>)
    requires forall k :: 0 <= k < |front| ==> front[k] != ""
    ensures FirstEmpty(front + lines) == |front| + FirstEmpty(lines)
    ensures (front + lines)[..|front| + FirstEmpty(lines)] == front + lines[..FirstEmpty(lines)]
  {
    if front == [] {
      assert front + lines == lines && front + lines[..FirstEmpty(lines)] == lines[..FirstEmpty(lines)];
    } else {
      assert (front + lines)[1..] == front[1..] + lines;
      EmptyLinePrepended(front[1..], lines);
    }
  }

  lemma {:induction false} BodyLinesPrepended(front: seq<string>, lines: seq<string>)
    requires front != [] && lines != [] && forall k :: 0 <= k < |front| ==> front[k] != ""
    ensures BodyLines(front + lines)
         == if FirstEmpty(lines) < |lines| then BodyLines(lines) else front[1..] + lines
  {
    var k := FirstEmpty(lines);
    EmptyLinePrepended(front, lines);
    if k < |lines| {
      assert (front + lines)[|front| + k + 1..] == lines[k + 1..];
    } else {
      assert (front + lines)[1..] == front[1..] + lines;
    }
  }

  lemma {:induction false} TailShorter(lines: seq<string>)
    requires lines != [] && lines[0] != ""
    ensures |JoinCrlf(lines[1..])| < |JoinCrlf(lines)|
  {}

  lemma {:induction false} BodyPrepended(front: seq<string>, m: string)
    requires front != [] && forall k :: 0 <= k < |front| ==> front[k] != ""
    ensures var body, lines := JoinCrlf(BodyLines(front + SplitCrlf(m))), SplitCrlf(m);
      && (HasEmptyLine(m) ==> body == JoinCrlf(BodyLines(lines)))
      && (!HasEmptyLine(m) ==> body == Terminated(front[1..]) + m && body != JoinCrlf(BodyLines(lines)))
  {
    var lines := SplitCrlf(m);
    BodyLinesPrepended(front, lines);
    if !HasEmptyLine(m) {
      JoinSplit(m);
      JoinTerminated(front[1..], lines);
      TailShorter(lines);
    }
  }

  lemma {:induction false} ParseLinesPrepended(front: seq<string>, lines: seq<string>)
    requires front != [] && lines != [] && forall k :: 0 <= k < |front| ==> front[k] != ""
    requires Fields(front).Ok? && ParseLines(lines).Ok?
    ensures ParseLines(front + lines)
         == Ok(Parsed(Fields(front).value + ParseLines(lines).value.headers, JoinCrlf(BodyLines(front + lines))))
  {
    var all, pre := front + lines, lines[..FirstEmpty(lines)];
    assert all[..FirstEmpty(all)] == front + pre by { EmptyLinePrepended(front, lines); }
    assert Fields(front + pre) == Ok(Fields(front).value + Fields(pre).value) by { FieldsPrepend(front, pre); }
  }

  // Putting a folded field in front of a message adds exactly that field to what is parsed,
  // and keeps the body exactly when the message has an empty line.
  lemma {:induction false} ParsePrepended(name: string, v: string, m: string)
    requires FieldName(name) && Folded(v) && Parse(m).Ok?
    ensures var r := Parse(name + ":" + v + CRLF + m);
      && r.Ok?
      && r.value.headers == [Header(name, v, name + ":" + v)] + Parse(m).value.headers
      && (HasEmptyLine(m) ==> r.value.body == Parse(m).value.body)
      && (!HasEmptyLine(m) ==> r.value.body == Terminated(SplitCrlf(v)[1..]) + m)
      && (r.value.body == Parse(m).value.body <==> HasEmptyLine(m))
  {
    var ls := SplitCrlf(v);
    var front := [name + ":" + ls[0]] + ls[1..];
    assert front[1..] == ls[1..];
    LinesPrepended(name, v, m);
    assert forall i :: 0 <= i < |front| ==> front[i] == if i == 0 then name + ":" + ls[0] else ls[i];
    FieldOfLines(name, ls);
    JoinSplit(v);
    ParseLinesPrepended(front, SplitCrlf(m));
    BodyPrepended(front, m);
  }
}
