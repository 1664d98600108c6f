/** internal/aliases/aliases.go, parseReader: from the lines of an aliases file to the alias map. */
module AliasFile {
  import opened Text
  import opened AliasClean
  import opened AliasResolve
  import opened AliasRight

  datatype FileError = MissingColon | MissingPart | AtOnTheLeft | BadRight(error: RightError)
  datatype Entry = Blank | Bad(error: FileError) | Alias(lhs: string, raw: string)

  function ReadLine(text: string): Entry {
    var line := TrimSpace(text);
    if line == "" || line[0] == '#' then Blank
    else
      match Cut(line, ':')
      case None => Bad(MissingColon)
      case Some(sp) =>
        var addr, raw := TrimSpace(sp.0), TrimSpace(sp.1);
        if addr == "" || raw == "" then Bad(MissingPart)
        else if '@' in addr then Bad(AtOnTheLeft)
        else Alias(addr, raw)
  }

  // The cleaning rules, the domain normaliser, the domain of the file, and the normaliser for the right side.
  datatype File = File(rules: Rules, normDomain: string -> string, domain: string, norm: Norm) {
    function Right(raw: string): Result<seq<Recipient>, RightError> { AliasRight.Right(norm, domain, raw) }
  }

  type Aliases = map<string, seq<Recipient>>

  function AddEntry(f: File, m: Aliases, e: Entry): Result<Aliases, FileError> {
    match e
    case Blank => Ok(m)
    case Bad(error) => Err(error)
    case Alias(lhs, raw) =>
      match f.Right(raw)
      case Err(e) => Err(BadRight(e))
      case Ok(rs) => Ok(m[ParseKey(f.rules, f.normDomain, lhs, f.domain) := rs])
  }

  function ParseFile(f: File, lines: seq<string>): Result<Aliases, FileError> {
    if lines == [] then Ok(map[])
    else
      match ParseFile(f, lines[..|lines| - 1])
      case Err(e) => Err(e)
      case Ok(m) => AddEntry(f, m, ReadLine(lines[|lines| - 1]))
  }

  lemma {:induction false} ParseFileErr(f: File, lines: seq<string>, i: nat)
    requires i <= |lines| && ParseFile(f, lines[..i]).Err?
    ensures ParseFile(f, lines) == ParseFile(f, lines[..i])
  {
    if i < |lines| {
      assert lines[..|lines| - 1][..i] == lines[..i];
      ParseFileErr(f, lines[..|lines| - 1], i);
    } else {
      assert lines[..i] == lines;
    }
  }

  // parseReader: the loop over the lines.
  method ParseReader(f: File, lines: seq<string>) returns (r: Result<Aliases, FileError>)
    ensures r == ParseFile(f, lines)
  {
    var aliases: Aliases := map[];
    for i := 0 to |lines|
      invariant ParseFile(f, lines[..i]) == Ok(aliases)
    {
      assert lines[..i + 1][..i] == lines[..i];
      var e := ReadLine(lines[i]);
      if e.Bad? {
        ParseFileErr(f, lines, i + 1);
        return Err(e.error);
      }
      if e.Alias? {
        var rs := ParseRHS(f.norm, f.domain, e.raw);
        if rs.Err? {
          ParseFileErr(f, lines, i + 1);
          return Err(BadRight(rs.error));
        }
        aliases := aliases[ParseKey(f.rules, f.normDomain, e.lhs, f.domain) := rs.value];
      }
    }
    assert lines[..|lines|] == lines;
    return Ok(aliases);
  }

  function KeyOf(f: File, e: Entry): Option<string> {
    if e.Alias? then Some(ParseKey(f.rules, f.normDomain, e.lhs, f.domain)) else None
  }

  lemma {:induction false} LastLineWins(f: File, lines: seq<string>, i: nat)
    requires ParseFile(f, lines).Ok? && i < |lines| && ReadLine(lines[i]).Alias?
    requires forall j :: i < j < |lines| ==> KeyOf(f, ReadLine(lines[j])) != KeyOf(f, ReadLine(lines[i]))
    ensures var e := ReadLine(lines[i]); var key := KeyOf(f, e).value;
      && f.Right(e.raw).Ok? && key in ParseFile(f, lines).value
      && ParseFile(f, lines).value[key] == f.Right(e.raw).value
  {
    var n := |lines| - 1;
    if i < n {
      LastLineWins(f, lines[..n], i);
      assert KeyOf(f, ReadLine(lines[n])) != KeyOf(f, ReadLine(lines[i]));
    }
  }

  // What a line of the file says about a user is what every spelling of that user looks up, until a later line
  // for the same user replaces it.
  lemma {:induction false} EverySpellingFindsTheLine(f: File, lines: seq<string>, i: nat, user: string, c: Resolver)
    requires Lawful(f.rules) && f.normDomain(f.domain) == f.domain && Without(user, '@')
    requires ParseFile(f, lines).Ok? && i < |lines| && ReadLine(lines[i]).Alias?
    requires forall j :: i < j < |lines| ==> KeyOf(f, ReadLine(lines[j])) != KeyOf(f, ReadLine(lines[i]))
    requires SameSpelling(f.rules, ReadLine(lines[i]).lhs, user)
    requires c.rules == f.rules && c.aliases == ParseFile(f, lines).value
    requires c.hook(user + "@" + f.domain) == Ok([])
    ensures f.Right(ReadLine(lines[i]).raw).Ok?
    ensures Lookup(c, user + "@" + f.domain) == Ok(f.Right(ReadLine(lines[i]).raw).value)
  {
    var e := ReadLine(lines[i]);
    LastLineWins(f, lines, i);
    assert Without(e.lhs, '@') by { assert '@' !in e.lhs; }
    KeysAgree(f.rules, f.normDomain, e.lhs, user, f.domain);
    LookupFound(c, user + "@" + f.domain, f.Right(e.raw).value);
  }

  lemma {:induction false} LookupFound(c: Resolver, addr: string, rs: seq<Recipient>)
    requires CleanDrops(c.rules, addr) in c.aliases && c.aliases[CleanDrops(c.rules, addr)] == rs && c.hook(addr) == Ok([])
    ensures Lookup(c, addr) == Ok(rs)
  {
    assert rs + [] == rs;
  }
}
