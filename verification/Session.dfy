/** internal/smtpsrv/conn.go: the commands of one SMTP connection. What the network, DNS and the hooks
    answer comes with each command; what the connection did is kept in a transcript. */
module Session {
  import opened Text
  import opened Crlf
  import opened DotReader
  import DomainInfo

  // ---------------------------------------------------------------- the transcript

  datatype Event =
    | Greeted(domain: string, extended: bool)           // HELO or EHLO answered 250
    | TlsUp                                             // STARTTLS completed
    | Authenticated(user: string, domain: string)       // AUTH answered 235
    | Cleared                                           // the envelope was reset
    // MAIL answered 250: the address as written, the outcome of SPF if it was checked, and when the level was
    | MailAccepted(from: string, written: string, spf: Spf, moment: nat)
    | RcptAccepted(addr: string, asked: string, moment: nat)   // RCPT answered 250, at that moment
    | PutCalled(from: string, to: seq<string>, data: string)  // the message was handed to the queue, less added headers

  datatype Spf = NoSpf | SpfPass | SpfFail | SpfOther

  datatype Mode = Mode(submission: bool, tls: bool)

  // What a connection relies on: the local domains, the normalisers of users and domains, and the databases of users
  // and of security levels, which may answer differently at different moments.
  datatype Site = Site(
    locals: set<string>,
    normUser: string -> Option<string>,
    normDomain: string -> Option<string>,
    users: (nat, string) -> Result<bool, ()>,
    levels: (nat, string, nat) -> bool)

  // normalize.Addr
  function NormalAddr(site: Site, addr: string): Option<string> {
    match (site.normUser(UserOf(addr)), site.normDomain(DomainOf(addr)))
    case (Some(user), Some(domain)) => Some(user + "@" + domain)
    case _ => None
  }

  predicate IsLocal(site: Site, domain: string) { domain == "" || domain in site.locals }

  // The normalisers make no "@", and keep a local domain local.
  ghost predicate Lawful(site: Site) {
    && (forall user :: Without(user, '@') && site.normUser(user).Some? ==> Without(site.normUser(user).value, '@'))
    && (forall d :: IsLocal(site, d) && site.normDomain(d).Some? ==> IsLocal(site, site.normDomain(d).value))
  }

  predicate TlsOn(mode: Mode, log: seq<Event>) { mode.tls || TlsUp in log }
  predicate Authed(log: seq<Event>) { exists e :: e in log && e.Authenticated? }

  // The security level of a connection.
  function Level(tls: bool): nat { if tls then DomainInfo.TLS_CLIENT else DomainInfo.PLAIN }

  datatype Envelope = Envelope(from: string, to: seq<string>)

  function After(env: Envelope, e: Event): Envelope {
    match e
    case Cleared => Envelope("", [])
    case MailAccepted(from, _, _, _) => Envelope(from, [])
    case RcptAccepted(addr, _, _) => env.(to := env.to + [addr])
    case _ => env
  }

  // The transaction a transcript is in.
  function Current(log: seq<Event>): Envelope {
    if log == [] then Envelope("", []) else After(Current(log[..|log| - 1]), log[|log| - 1])
  }

  const MAX_RCPTS := 101

  // What may be recorded after `log`.
  predicate Allowed(mode: Mode, site: Site, log: seq<Event>, e: Event) {
    match e
    case Authenticated(_, _) => TlsOn(mode, log) && !Authed(log)
    case Greeted(domain, _) => domain != ""
    case MailAccepted(from, written, spf, moment) =>
      && from != "" && (mode.submission ==> Authed(log))
      && spf != SpfFail && (spf == SpfPass ==> site.levels(moment, DomainOf(written), Level(TlsOn(mode, log))))
    case RcptAccepted(addr, asked, known) =>
      && Current(log).from != "" && |Current(log).to| < MAX_RCPTS
      && Admitted(site, Authed(log), e)
    case PutCalled(from, to, _) => Envelope(from, to) == Current(log) && from != "" && to != []
    case _ => true
  }

  // Mail may go to a user whom the database knows under the normal form of a local address, and from an authenticated
  // client to any address elsewhere.
  predicate Admitted(site: Site, authed: bool, e: Event)
    requires e.RcptAccepted?
  {
    if DomainIn(e.asked, site.locals) then NormalAddr(site, e.asked) == Some(e.addr) && site.users(e.moment, e.addr) == Ok(true)
    else e.addr == e.asked && authed
  }

  predicate Proper(mode: Mode, site: Site, log: seq<Event>) {
    log == [] || (Proper(mode, site, log[..|log| - 1]) && Allowed(mode, site, log[..|log| - 1], log[|log| - 1]))
  }

  // The name given in the last greeting.
  function Name(log: seq<Event>): string {
    if log == [] then ""
    else if log[|log| - 1].Greeted? then log[|log| - 1].domain
    else Name(log[..|log| - 1])
  }

  // The client has said EHLO.
  predicate Extended(log: seq<Event>) {
    log != [] && ((log[|log| - 1].Greeted? && log[|log| - 1].extended) || Extended(log[..|log| - 1]))
  }

  // The user who authenticated last, and the domain.
  function Login(log: seq<Event>): (string, string) {
    if log == [] then ("", "")
    else if log[|log| - 1].Authenticated? then (log[|log| - 1].user, log[|log| - 1].domain)
    else Login(log[..|log| - 1])
  }

  lemma {:induction false} Pair(log: seq<Event>, a: Event, b: Event)
    ensures log + [a] + [b] == log + [a, b]
  {}

  lemma {:induction false} Recorded(mode: Mode, site: Site, log: seq<Event>, e: Event)
    requires Proper(mode, site, log) && Allowed(mode, site, log, e)
    ensures Proper(mode, site, log + [e]) && Current(log + [e]) == After(Current(log), e)
    ensures TlsOn(mode, log + [e]) <==> TlsOn(mode, log) || e.TlsUp?
    ensures Authed(log + [e]) <==> Authed(log) || e.Authenticated?
    ensures Name(log + [e]) == if e.Greeted? then e.domain else Name(log)
    ensures Extended(log + [e]) <==> Extended(log) || (e.Greeted? && e.extended)
    ensures Login(log + [e]) == if e.Authenticated? then (e.user, e.domain) else Login(log)
  {
    assert (log + [e])[..|log|] == log;
    if Authed(log) {
      var x :| x in log && x.Authenticated?;
      assert x in log + [e];
    }
    if e.Authenticated? { assert e in log + [e]; }
  }

  // ---------------------------------------------------------------- what the world answers

  datatype Hook = HookOk | HookFailed(permanent: bool)

  datatype Input =
    | Helo(params: string) | Ehlo(params: string) | Help | Noop | Rset | Vrfy | Expn
    // scanned: the first word after "FROM:" or "TO:"; parsed: the address in it
    | MailCmd(params: string, scanned: Option<string>, parsed: Option<string>, spf: Spf, moment: nat)
    | RcptCmd(params: string, scanned: Option<string>, parsed: Option<string>, moment: nat)
    | DataCmd(writeOk: bool, read: Outcome, bytes: string, checkOk: bool, signOk: bool, hook: Hook, putOk: bool)
    | StartTls(writeOk: bool, handshakeOk: bool)
    // response: what the client sent as credentials, if it could be read; decoded: user and domain
    | AuthCmd(plain: bool, response: Option<string>, decoded: Option<(string, string)>, ok: Result<bool, ()>)
    | Quit | Http | Unknown

  predicate HasPrefixFold(s: string, p: string) { |p| <= |s| && ToLower(s[..|p|]) == p }

  function FirstField(s: string): (r: string)
    requires TrimSpace(s) != ""
    ensures r != ""
  {
    var t := TrimSpace(s);
    FirstWord(t)
  }

  function FirstWord(t: string): (r: string)
    requires t != ""
    ensures r != ""
  {
    if |t| == 1 || IsSpace(t[1]) then t[..1] else [t[0]] + FirstWord(t[1..])
  }

  // The command starts with these letters, in either case.
  lemma {:induction false} PrefixMeaning(s: string, p: string)
    ensures HasPrefixFold(s, p) <==> exists head, rest :: s == head + rest && ToLower(head) == p
  {
    if HasPrefixFold(s, p) { assert s == s[..|p|] + s[|p|..]; }
  }

  // The first word: what is before the first white space that follows something else.
  lemma {:induction false} FirstFieldMeaning(s: string) returns (before: string, after: string)
    requires TrimSpace(s) != ""
    ensures var r := FirstField(s);
      && s == before + r + after && Spaces(before) && r != "" && Free(r, IsSpace) && (after == "" || IsSpace(after[0]))
  {
    var pad, rest := TrimSpaceMeaning(s);
    var t := TrimSpace(s);
    FirstWordMeaning(t);
    before, after := pad, t[|FirstWord(t)|..] + rest;
  }

  lemma {:induction false} FirstWordMeaning(t: string)
    requires t != "" && !IsSpace(t[0])
    ensures var r := FirstWord(t); r <= t && Free(r, IsSpace) && (|r| < |t| ==> IsSpace(t[|r|]))
  {
    if |t| > 1 && !IsSpace(t[1]) {
      FirstWordMeaning(t[1..]);
      var r := FirstWord(t[1..]);
      assert t == [t[0]] + t[1..];
      assert |r| < |t[1..]| ==> t[1 + |r|] == t[1..][|r|];
    }
  }

  function NoSpaces(s: string): string { Remove(s, c => c == ' ') }

  // ---------------------------------------------------------------- what each command does

  // normalize.DomainToUnicode
  function UnicodeAddr(site: Site, addr: string): Option<string> {
    match site.normDomain(DomainOf(addr))
    case Some(domain) => Some(UserOf(addr) + "@" + domain)
    case None => None
  }

  // The sender a MAIL command names, if it is acceptable. The level of the connection counts only if SPF passed.
  function Sender(site: Site, authed: bool, tls: bool, input: Input): (e: Option<Event>)
    requires input.MailCmd?
    ensures e.Some? ==> e.value.MailAccepted?
  {
    if input.scanned.None? then None
    else if NoSpaces(input.scanned.value) == "<>" then Some(MailAccepted("<>", "<>", NoSpf, input.moment))
    else if input.parsed.None? || '@' !in input.parsed.value || |input.parsed.value| > 256 then None
    else
      var addr, spf := input.parsed.value, if authed then NoSpf else input.spf;
      if spf == SpfFail || (spf == SpfPass && !site.levels(input.moment, DomainOf(addr), Level(tls))) then None
      else match UnicodeAddr(site, addr)
        case Some(from) => Some(MailAccepted(from, addr, spf, input.moment))
        case None => None
  }

  // The address a RCPT command asks for, and the one that is stored, if mail may go there.
  function Recipient(site: Site, authed: bool, input: Input): Option<(string, string)>
    requires input.RcptCmd?
  {
    if input.scanned.None? || input.parsed.None? || input.parsed.value == "" then None
    else match UnicodeAddr(site, input.parsed.value)
      case None => None
      case Some(asked) =>
        if |asked| > 256 then None
        else if !DomainIn(asked, site.locals) then (if authed then Some((asked, asked)) else None)
        else match NormalAddr(site, asked)
          case None => None
          case Some(addr) => if site.users(input.moment, addr) == Ok(true) then Some((asked, addr)) else None
  }

  // Mail may go from here to the address asked for, under the name it is stored as: a user whom the database knows by
  // the normal form of a local address, or any address elsewhere if the client has authenticated.
  ghost predicate SoundRecipient(site: Site, authed: bool, input: Input, asked: string, addr: string)
    requires input.RcptCmd?
  {
    && input.scanned.Some? && input.parsed.Some? && input.parsed.value != "" && |asked| <= 256
    && (exists domain :: site.normDomain(DomainOf(input.parsed.value)) == Some(domain)
                      && asked == UserOf(input.parsed.value) + "@" + domain)
    && if DomainOf(asked) == "" || DomainOf(asked) in site.locals
       then NormalForm(site, asked, addr) && site.users(input.moment, addr) == Ok(true)
       else authed && addr == asked
  }

  ghost predicate NormalForm(site: Site, asked: string, addr: string) {
    exists user, domain :: site.normUser(UserOf(asked)) == Some(user) && site.normDomain(DomainOf(asked)) == Some(domain)
                        && addr == user + "@" + domain
  }

  lemma {:induction false} RecipientMeaning(site: Site, authed: bool, input: Input, asked: string, addr: string)
    requires input.RcptCmd?
    ensures Recipient(site, authed, input) == Some((asked, addr)) <==> SoundRecipient(site, authed, input, asked, addr)
  {
    NormalAddrMeaning(site, asked, addr);
  }

  lemma {:induction false} NormalAddrMeaning(site: Site, asked: string, addr: string)
    ensures NormalAddr(site, asked) == Some(addr) <==> NormalForm(site, asked, addr)
  {}

  // The events a command adds to the transcript.
  function Effect(mode: Mode, site: Site, log: seq<Event>, input: Input): seq<Event> {
    var env := Current(log);
    match input
    case Helo(params) => if TrimSpace(params) == "" then [] else [Greeted(FirstField(params), false)]
    case Ehlo(params) => if TrimSpace(params) == "" then [] else [Greeted(FirstField(params), true)]
    case Rset => [Cleared]
    case MailCmd(params, scanned, _, _, _) =>
      if !HasPrefixFold(params, "from:") || (mode.submission && !Authed(log)) || scanned.None? then []
      else
        var sender := Sender(site, Authed(log), TlsOn(mode, log), input);
        if sender.Some? then [Cleared, sender.value] else [Cleared]
    case RcptCmd(params, _, _, moment) =>
      var r := Recipient(site, Authed(log), input);
      if HasPrefixFold(params, "to:") && env.from != "" && |env.to| < MAX_RCPTS && r.Some?
      then [RcptAccepted(r.value.1, r.value.0, moment)] else []
    case DataCmd(writeOk, read, bytes, checkOk, signOk, hook, putOk) =>
      if Name(log) == "" || env.from == "" || env.to == [] || !writeOk || read != Done || !checkOk
         || (Authed(log) && !signOk) || hook.HookFailed? then []
      else if putOk then [PutCalled(env.from, env.to, bytes), Cleared] else [PutCalled(env.from, env.to, bytes)]
    case StartTls(writeOk, handshakeOk) =>
      if TlsOn(mode, log) || !writeOk || !handshakeOk then [] else [Cleared, TlsUp]
    case AuthCmd(plain, response, decoded, ok) =>
      if TlsOn(mode, log) && !Authed(log) && plain && response.Some? && decoded.Some? && ok == Ok(true)
      then [Authenticated(decoded.value.0, decoded.value.1)] else []
    case _ => []
  }

  // A command that is answered with a failure.
  predicate Fails(mode: Mode, site: Site, log: seq<Event>, input: Input) {
    var e := Effect(mode, site, log, input);
    match input
    case MailCmd(_, _, _, _, _) => |e| < 2
    case DataCmd(_, _, _, _, _, _, _) => |e| < 2
    case Help => false
    case Noop => false
    case Quit => false
    case Http => false
    case _ => e == []
  }

  // The transcript after a list of commands.
  function Transcript(mode: Mode, site: Site, log: seq<Event>, inputs: seq<Input>): seq<Event> {
    if inputs == [] then log
    else
      var t := Transcript(mode, site, log, inputs[..|inputs| - 1]);
      t + Effect(mode, site, t, inputs[|inputs| - 1])
  }

  // DATA whose lines end in a bare CR or LF: it breaks the connection, and is not counted as a failure.
  predicate BrokenData(log: seq<Event>, input: Input) {
    && input.DataCmd? && Name(log) != "" && Current(log).from != "" && Current(log).to != []
    && input.writeOk && input.read == InvalidLineEnding
  }

  predicate Counted(mode: Mode, site: Site, log: seq<Event>, input: Input) {
    Fails(mode, site, log, input) && !BrokenData(log, input)
  }

  // How many of the commands failed.
  function FailureCount(mode: Mode, site: Site, log: seq<Event>, inputs: seq<Input>): nat {
    if inputs == [] then 0
    else
      var n := |inputs| - 1;
      FailureCount(mode, site, log, inputs[..n])
        + if Counted(mode, site, Transcript(mode, site, log, inputs[..n]), inputs[n]) then 1 else 0
  }

  // Whether the last of these commands ends the connection: the client leaves, the data is broken, it is the third
  // failure, or its reply cannot be written. A completed STARTTLS has no reply.
  predicate Ends(mode: Mode, site: Site, log: seq<Event>, inputs: seq<Input>, written: bool)
    requires inputs != []
  {
    var n := |inputs| - 1;
    var t := Transcript(mode, site, log, inputs[..n]);
    || inputs[n].Quit? || inputs[n].Http?
    || BrokenData(t, inputs[n])
    || FailureCount(mode, site, log, inputs) >= 3
    || (!written && (inputs[n].StartTls? ==> Fails(mode, site, t, inputs[n])))
  }

  // The code for a command that succeeds; a completed STARTTLS has none.
  function Success(input: Input): int {
    match input
    case Help => 214
    case AuthCmd(_, _, _, _) => 235
    case StartTls(_, _) => 0
    case _ => 250
  }

  // The answer to a command says whether it failed.
  predicate Answers(mode: Mode, site: Site, log: seq<Event>, input: Input, reply: Option<int>) {
    && (reply.None? <==> input.Quit? || input.Http?)
    && (reply.Some? ==>
          && (reply.value == Success(input) <==> !Fails(mode, site, log, input))
          && (reply.value >= 400 <==> Counted(mode, site, log, input))
          && (reply.value < 0 <==> BrokenData(log, input)))
  }

  // ---------------------------------------------------------------- the connection

  class Conn {
    const mode: Mode
    const site: Site

    var ehloDomain: string
    var isESMTP: bool
    var mailFrom: string
    var rcptTo: seq<string>
    var data: string
    var spfResult: Spf
    var onTLS: bool
    var completedAuth: bool
    var authUser: string
    var authDomain: string
    ghost var log: seq<Event>

    ghost predicate Valid()
      reads this
    {
      && Proper(mode, site, log)
      && Current(log) == Envelope(mailFrom, rcptTo)
      && onTLS == TlsOn(mode, log)
      && completedAuth == Authed(log)
      && ehloDomain == Name(log)
      && isESMTP == Extended(log)
      && (authUser, authDomain) == Login(log)
    }

    constructor (mode: Mode, site: Site)
      ensures Valid() && this.mode == mode && this.site == site && log == []
    {
      this.mode, this.site := mode, site;
      ehloDomain, isESMTP := "", false;
      mailFrom, rcptTo, data, spfResult := "", [], "", NoSpf;
      onTLS, completedAuth, authUser, authDomain := mode.tls, false, "", "";
      log := [];
    }

    // resetEnvelope
    method ResetEnvelope()
      requires Valid()
      modifies this
      ensures Valid() && log == old(log) + [Cleared]
      ensures mailFrom == "" && rcptTo == [] && data == "" && spfResult == NoSpf
      ensures onTLS == old(onTLS) && completedAuth == old(completedAuth) && ehloDomain == old(ehloDomain)
      ensures isESMTP == old(isESMTP) && authUser == old(authUser) && authDomain == old(authDomain)
    {
      Recorded(mode, site, log, Cleared);
      mailFrom, rcptTo, data, spfResult := "", [], "", NoSpf;
      log := log + [Cleared];
    }

    // HELO and EHLO
    method Hello(params: string, extended: bool) returns (code: int)
      requires Valid()
      modifies this
      ensures Valid()
      ensures log == old(log) + if TrimSpace(params) == "" then [] else [Greeted(FirstField(params), extended)]
      ensures code == if TrimSpace(params) == "" then 501 else 250
    {
      if TrimSpace(params) == "" {
        return 501;
      }
      var name := FirstField(params);
      Recorded(mode, site, log, Greeted(name, extended));
      ehloDomain := name;
      log := log + [Greeted(name, extended)];
      if extended {
        isESMTP := true;
      }
      return 250;
    }

    // MAIL, the sender address: the null path, or an address with a domain that, unless the client has authenticated,
    // did not fail SPF, and for which the level of the connection was accepted if SPF passed.
    method CheckSender(input: Input) returns (r: Result<string, int>, ghost e: Option<Event>)
      requires input.MailCmd? && input.scanned.Some?
      modifies this`spfResult
      ensures e == Sender(site, completedAuth, onTLS, input)
      ensures if r.Ok? then e.Some? && r.value == e.value.from else e.None? && r.error >= 500
      ensures r.Ok? ==> r.value == "<>" || SoundSender(site, completedAuth, onTLS, input, r.value)
    {
      e := Sender(site, completedAuth, onTLS, input);
      if NoSpaces(input.scanned.value) == "<>" {
        return Ok("<>"), e;
      }
      if input.parsed.None? || input.parsed.value == "" {
        return Err(501), e;
      }
      var addr := input.parsed.value;
      if '@' !in addr {
        return Err(501), e;
      }
      if |addr| > 256 {
        return Err(501), e;
      }
      spfResult := if completedAuth then NoSpf else input.spf;
      if spfResult == SpfFail {
        return Err(550), e;
      }
      // secLevelCheck: only consulted when SPF passed.
      if spfResult == SpfPass && !site.levels(input.moment, DomainOf(addr), Level(onTLS)) {
        return Err(550), e;
      }
      var unicode := UnicodeAddr(site, addr);
      if unicode.None? {
        return Err(501), e;
      }
      SenderMeaning(site, completedAuth, onTLS, input);
      return Ok(unicode.value), e;
    }

    // MAIL
    method Mail(input: Input) returns (code: int)
      requires Valid() && input.MailCmd?
      modifies this
      ensures Valid() && log == old(log) + Effect(mode, site, old(log), input)
      ensures if Fails(mode, site, old(log), input) then code >= 400 else code == 250
    {
      if !HasPrefixFold(input.params, "from:") {
        return 500;
      }
      if mode.submission && !completedAuth {
        return 550;
      }
      if input.scanned.None? {
        return 500;
      }
      code := NewSender(input);
    }

    // MAIL, once the command is in order: a new transaction.
    method NewSender(input: Input) returns (code: int)
      requires Valid() && input.MailCmd? && input.scanned.Some? && (mode.submission ==> completedAuth)
      modifies this
      ensures Valid()
      ensures var sender := Sender(site, Authed(old(log)), TlsOn(mode, old(log)), input);
        && log == old(log) + (if sender.Some? then [Cleared, sender.value] else [Cleared])
        && if sender.None? then code >= 400 else code == 250
    {
      ResetEnvelope();
      var addr;
      ghost var e;
      addr, e := CheckSender(input);
      if addr.Err? {
        return addr.error;
      }
      SenderAllowed(mode, site, log, input);
      SetSender(addr.value, e.value);
      Pair(old(log), Cleared, e.value);
      return 250;
    }

    method SetSender(addr: string, ghost e: Event)
      requires Valid() && e.MailAccepted? && e.from == addr && Allowed(mode, site, log, e) && rcptTo == []
      modifies this
      ensures Valid() && log == old(log) + [e]
    {
      Recorded(mode, site, log, e);
      mailFrom := addr;
      log := log + [e];
    }

    // RCPT, the address: where mail may go, and under which name it is stored.
    method CheckRecipient(input: Input) returns (asked: string, r: Result<string, int>)
      requires input.RcptCmd? && input.scanned.Some?
      ensures Recipient(site, completedAuth, input) == if r.Ok? then Some((asked, r.value)) else None
      ensures r.Err? ==> r.error >= 400
      ensures r.Ok? ==> Admitted(site, completedAuth, RcptAccepted(r.value, asked, input.moment))
    {
      asked := "";
      if input.parsed.None? || input.parsed.value == "" {
        return asked, Err(501);
      }
      var unicode := UnicodeAddr(site, input.parsed.value);
      if unicode.None? {
        return asked, Err(501);
      }
      asked := unicode.value;
      if |asked| > 256 {
        return asked, Err(501);
      }
      var localDst := DomainIn(asked, site.locals);
      if !localDst && !completedAuth {
        return asked, Err(503);
      }
      if !localDst {
        return asked, Ok(asked);
      }
      var normal := NormalAddr(site, asked);
      if normal.None? {
        return asked, Err(550);
      }
      var known := site.users(input.moment, normal.value);
      if known.Err? {
        return asked, Err(451);
      }
      if !known.value {
        return asked, Err(550);
      }
      return asked, Ok(normal.value);
    }

    // RCPT
    method Rcpt(input: Input) returns (code: int)
      requires Valid() && input.RcptCmd?
      modifies this
      ensures Valid() && log == old(log) + Effect(mode, site, old(log), input)
      ensures if Fails(mode, site, old(log), input) then code >= 400 else code == 250
    {
      if !HasPrefixFold(input.params, "to:") {
        return 500;
      }
      if mailFrom == "" {
        return 503;
      }
      if input.scanned.None? {
        return 500;
      }
      if |rcptTo| > 100 {
        return 452;
      }
      var asked, addr := CheckRecipient(input);
      if addr.Err? {
        return addr.error;
      }
      AddRecipient(addr.value, RcptAccepted(addr.value, asked, input.moment));
      return 250;
    }

    method AddRecipient(addr: string, ghost e: Event)
      requires Valid() && e.RcptAccepted? && e.addr == addr && Allowed(mode, site, log, e)
      modifies this
      ensures Valid() && log == old(log) + [e]
    {
      Recorded(mode, site, log, e);
      rcptTo := rcptTo + [addr];
      log := log + [e];
    }

    // DATA
    method Data(input: Input) returns (code: int)
      requires Valid() && input.DataCmd?
      modifies this
      ensures Valid() && log == old(log) + Effect(mode, site, old(log), input)
      ensures code == 250 <==> !Fails(mode, site, old(log), input)
      ensures code < 0 <==> BrokenData(old(log), input)
      ensures code >= 400 <==> Counted(mode, site, old(log), input)
    {
      if ehloDomain == "" {
        return 503;
      }
      if mailFrom == "" {
        return 503;
      }
      if |rcptTo| == 0 {
        return 503;
      }
      if !input.writeOk {
        return 554;
      }
      data := input.bytes;
      if input.read != Done {
        if input.read == TooLarge {
          return 552;
        }
        if input.read == InvalidLineEnding {
          return -1;
        }
        return 554;
      }
      if !input.checkOk {
        return 554;
      }
      if completedAuth && !input.signOk {
        return 451;
      }
      if input.hook.HookFailed? {
        return if input.hook.permanent then 554 else 451;
      }
      code := HandOver(input.putOk);
    }

    // DATA, the end: the message is put in the queue.
    method HandOver(putOk: bool) returns (code: int)
      requires Valid() && mailFrom != "" && rcptTo != []
      modifies this
      ensures var put := PutCalled(old(mailFrom), old(rcptTo), old(data));
        Valid() && log == old(log) + if putOk then [put, Cleared] else [put]
      ensures code == if putOk then 250 else 451
    {
      ghost var put := PutCalled(mailFrom, rcptTo, data);
      Recorded(mode, site, log, put);
      log := log + [put];
      if !putOk {
        return 451;
      }
      ResetEnvelope();
      Pair(old(log), put, Cleared);
      return 250;
    }

    // STARTTLS
    method StartTLS(input: Input) returns (code: int)
      requires Valid() && input.StartTls?
      modifies this
      ensures Valid() && log == old(log) + Effect(mode, site, old(log), input)
      ensures if Fails(mode, site, old(log), input) then code >= 400 else code == 0
    {
      if onTLS {
        return 503;
      }
      if !input.writeOk || !input.handshakeOk {
        return 554;
      }
      ResetEnvelope();
      Recorded(mode, site, log, TlsUp);
      onTLS := true;
      log := log + [TlsUp];
      Pair(old(log), Cleared, TlsUp);
      return 0;
    }

    // AUTH
    method Auth(input: Input) returns (code: int)
      requires Valid() && input.AuthCmd?
      modifies this
      ensures Valid() && log == old(log) + Effect(mode, site, old(log), input)
      ensures if Fails(mode, site, old(log), input) then code >= 400 else code == 235
    {
      if !onTLS {
        return 503;
      }
      if completedAuth {
        return 503;
      }
      if !input.plain {
        return 534;
      }
      if input.response.None? {
        return 554;
      }
      if input.decoded.None? {
        return 501;
      }
      if input.ok.Err? {
        return 454;
      }
      if !input.ok.value {
        return 535;
      }
      var (user, domain) := input.decoded.value;
      Recorded(mode, site, log, Authenticated(user, domain));
      authUser, authDomain, completedAuth := user, domain, true;
      log := log + [Authenticated(user, domain)];
      return 235;
    }

    // One command of the loop; None ends the connection.
    method Dispatch(input: Input) returns (reply: Option<int>)
      requires Valid()
      modifies this
      ensures Valid() && log == old(log) + Effect(mode, site, old(log), input)
      ensures Answers(mode, site, old(log), input, reply)
    {
      match input
      case Helo(params) => var c := Hello(params, false); reply := Some(c);
      case Ehlo(params) => var c := Hello(params, true); reply := Some(c);
      case Help => reply := Some(214);
      case Noop => reply := Some(250);
      case Rset => ResetEnvelope(); reply := Some(250);
      case Vrfy => reply := Some(502);
      case Expn => reply := Some(502);
      case MailCmd(_, _, _, _, _) => var c := Mail(input); reply := Some(c);
      case RcptCmd(_, _, _, _) => var c := Rcpt(input); reply := Some(c);
      case DataCmd(_, _, _, _, _, _, _) => var c := Data(input); reply := Some(c);
      case StartTls(_, _) => var c := StartTLS(input); reply := Some(c);
      case AuthCmd(_, _, _, _) => var c := Auth(input); reply := Some(c);
      case Quit => reply := None;
      case Http => reply := None;
      case Unknown => reply := Some(500);
    }

    // One turn of the loop: handle a command, count its failure, and say whether the connection stays open.
    method Turn(input: Input, written: bool, errCount: nat) returns (reply: Option<int>, errors: nat, open: bool)
      requires Valid()
      modifies this
      ensures Valid() && log == old(log) + Effect(mode, site, old(log), input)
      ensures Answers(mode, site, old(log), input, reply)
      ensures errors == errCount + if Counted(mode, site, old(log), input) then 1 else 0
      ensures open <==> !(input.Quit? || input.Http? || BrokenData(old(log), input) || (errors >= 3 && errors > errCount)
                          || (!written && (input.StartTls? ==> Fails(mode, site, old(log), input))))
    {
      reply := Dispatch(input);
      errors, open := errCount, false;
      if reply.Some? {
        var code := reply.value;
        open := true;
        if code > 0 {
          if code >= 400 {
            errors := errors + 1;
            if errors >= 3 {
              open := false;
            }
          }
          if open && !written {
            open := false;
          }
        } else if code < 0 {
          open := false;
        }
      }
    }

    // Handle: the loop over the commands the client sends. `written[i]` says whether the i-th reply could be written.
    // It handles the commands up to the first that ends the connection, which is the third failure at the latest.
    method Handle(inputs: seq<Input>, written: seq<bool>) returns (done: nat, replies: seq<Option<int>>)
      requires Valid() && |written| == |inputs|
      modifies this
      ensures Valid() && done <= |inputs| && log == Transcript(mode, site, old(log), inputs[..done])
      ensures forall k :: 0 <= k < done - 1 ==> !Ends(mode, site, old(log), inputs[..k + 1], written[k])
      ensures done < |inputs| ==> done > 0 && Ends(mode, site, old(log), inputs[..done], written[done - 1])
      ensures |replies| == done && AllAnswered(mode, site, old(log), inputs[..done], replies)
    {
      replies, done := [], 0;
      var errCount, open := 0, true;
      while done < |inputs| && open
        invariant Handled(mode, site, old(log), inputs, written, done, open) && Valid()
        invariant log == Transcript(mode, site, old(log), inputs[..done])
        invariant errCount == FailureCount(mode, site, old(log), inputs[..done]) && (open ==> errCount < 3)
        invariant |replies| == done && AllAnswered(mode, site, old(log), inputs[..done], replies)
      {
        ghost var before := log;
        var reply;
        reply, errCount, open := Turn(inputs[done], written[done], errCount);
        HandledOne(mode, site, old(log), inputs, written, done, before, open);
        AnsweredOne(mode, site, old(log), inputs, done, replies, reply);
        replies := replies + [reply];
        done := done + 1;
      }
    }
  }

  // The first `done` commands were handled, and none of them but possibly the last ended the connection.
  predicate Handled(mode: Mode, site: Site, log: seq<Event>, inputs: seq<Input>, written: seq<bool>, done: nat,
      open: bool)
    requires |written| == |inputs|
  {
    && done <= |inputs|
    && (forall k :: 0 <= k < (if open then done else done - 1) ==> !Ends(mode, site, log, inputs[..k + 1], written[k]))
    && (!open ==> done > 0 && Ends(mode, site, log, inputs[..done], written[done - 1]))
  }

  // Each command got the reply it should.
  predicate AllAnswered(mode: Mode, site: Site, log: seq<Event>, inputs: seq<Input>, replies: seq<Option<int>>)
    requires |replies| == |inputs|
  {
    forall k :: 0 <= k < |inputs| ==> Answers(mode, site, Transcript(mode, site, log, inputs[..k]), inputs[k], replies[k])
  }

  lemma {:induction false} AnsweredOne(
    mode: Mode, site: Site, log: seq<Event>, inputs: seq<Input>, i: nat, replies: seq<Option<int>>, reply: Option<int>)
    requires i < |inputs| && |replies| == i && AllAnswered(mode, site, log, inputs[..i], replies)
    requires Answers(mode, site, Transcript(mode, site, log, inputs[..i]), inputs[i], reply)
    ensures AllAnswered(mode, site, log, inputs[..i + 1], replies + [reply])
  {
    var all := inputs[..i + 1];
    forall k | 0 <= k < i + 1
      ensures Answers(mode, site, Transcript(mode, site, log, all[..k]), all[k], (replies + [reply])[k])
    {
      assert all[..k] == inputs[..k];
      if k < i { assert inputs[..i][..k] == inputs[..k] && inputs[..i][k] == inputs[k]; }
    }
  }

  lemma {:induction false} HandledOne(
    mode: Mode, site: Site, log: seq<Event>, inputs: seq<Input>, written: seq<bool>, i: nat, t: seq<Event>, open: bool)
    requires |written| == |inputs| && i < |inputs| && Handled(mode, site, log, inputs, written, i, true)
    requires t == Transcript(mode, site, log, inputs[..i]) && FailureCount(mode, site, log, inputs[..i]) < 3
    requires var errors := FailureCount(mode, site, log, inputs[..i]) + if Counted(mode, site, t, inputs[i]) then 1 else 0;
      open <==> !(inputs[i].Quit? || inputs[i].Http? || BrokenData(t, inputs[i]) || errors >= 3
                  || (!written[i] && (inputs[i].StartTls? ==> Fails(mode, site, t, inputs[i]))))
    ensures Handled(mode, site, log, inputs, written, i + 1, open)
    ensures FailureCount(mode, site, log, inputs[..i + 1])
         == FailureCount(mode, site, log, inputs[..i]) + if Counted(mode, site, t, inputs[i]) then 1 else 0
    ensures Transcript(mode, site, log, inputs[..i + 1]) == t + Effect(mode, site, t, inputs[i])
    ensures open ==> FailureCount(mode, site, log, inputs[..i + 1]) < 3
  {
    CommandStep(mode, site, log, inputs, i);
    EndsStep(mode, site, log, inputs, i, written[i]);
    HandledMore(mode, site, log, inputs, written, i, open);
  }

  lemma {:induction false} CommandStep(mode: Mode, site: Site, log: seq<Event>, inputs: seq<Input>, i: nat)
    requires i < |inputs|
    ensures var t := Transcript(mode, site, log, inputs[..i]);
      && Transcript(mode, site, log, inputs[..i + 1]) == t + Effect(mode, site, t, inputs[i])
      && FailureCount(mode, site, log, inputs[..i + 1])
         == FailureCount(mode, site, log, inputs[..i]) + if Counted(mode, site, t, inputs[i]) then 1 else 0
  {
    var now := inputs[..i + 1];
    assert now[..i] == inputs[..i] && now[i] == inputs[i];
  }

  lemma {:induction false} EndsStep(mode: Mode, site: Site, log: seq<Event>, inputs: seq<Input>, i: nat, written: bool)
    requires i < |inputs|
    ensures var t := Transcript(mode, site, log, inputs[..i]);
      Ends(mode, site, log, inputs[..i + 1], written) <==>
        || inputs[i].Quit? || inputs[i].Http? || BrokenData(t, inputs[i])
        || FailureCount(mode, site, log, inputs[..i + 1]) >= 3
        || (!written && (inputs[i].StartTls? ==> Fails(mode, site, t, inputs[i])))
  {
    var now := inputs[..i + 1];
    assert now[..i] == inputs[..i] && now[i] == inputs[i];
  }

  lemma {:induction false} HandledMore(
    mode: Mode, site: Site, log: seq<Event>, inputs: seq<Input>, written: seq<bool>, i: nat, open: bool)
    requires |written| == |inputs| && i < |inputs| && Handled(mode, site, log, inputs, written, i, true)
    requires open <==> !Ends(mode, site, log, inputs[..i + 1], written[i])
    ensures Handled(mode, site, log, inputs, written, i + 1, open)
  {}

  // Three failures end a connection: of the commands that Handle took, at most three failed, and if three did, the
  // third was the last.
  lemma {:induction false} AtMostThreeFail(mode: Mode, site: Site, log: seq<Event>, inputs: seq<Input>,
      written: seq<bool>, done: nat)
    requires |written| == |inputs| && done <= |inputs|
    requires forall k :: 0 <= k < done - 1 ==> !Ends(mode, site, log, inputs[..k + 1], written[k])
    ensures FailureCount(mode, site, log, inputs[..done]) <= 3
    ensures forall k :: 0 <= k < done ==> FailureCount(mode, site, log, inputs[..k]) < 3
  {
    forall k | 0 <= k < done ensures FailureCount(mode, site, log, inputs[..k]) < 3 {
      if k > 0 { assert !Ends(mode, site, log, inputs[..k - 1 + 1], written[k - 1]); }
    }
    if done > 0 { assert inputs[..done][..done - 1] == inputs[..done - 1]; }
  }

  // The database allows the level of the connection for the domain that was written.
  predicate LevelAllowed(site: Site, tls: bool, input: Input)
    requires input.MailCmd? && input.parsed.Some?
  {
    var level := if tls then DomainInfo.TLS_CLIENT else DomainInfo.PLAIN;
    site.levels(input.moment, DomainOf(input.parsed.value), level)
  }

  // The conditions under which an address is a sender.
  predicate SoundSender(site: Site, authed: bool, tls: bool, input: Input, from: string)
    requires input.MailCmd?
  {
    && input.parsed.Some? && !Without(input.parsed.value, '@') && |input.parsed.value| <= 256
    && UserOf(from) == UserOf(input.parsed.value)
    && site.normDomain(DomainOf(input.parsed.value)) == Some(DomainOf(from))
    && (authed || (input.spf != SpfFail && (input.spf == SpfPass ==> LevelAllowed(site, tls, input))))
  }

  // A sender is the null path if it was written, and otherwise the address that was written, with its domain in
  // normal form, exactly if it is sound.
  lemma {:induction false} SenderMeaning(site: Site, authed: bool, tls: bool, input: Input)
    requires input.MailCmd? && input.scanned.Some?
    ensures var s := Sender(site, authed, tls, input);
      if NoSpaces(input.scanned.value) == "<>" then s.Some? && s.value.from == "<>"
      else
        && (s.Some? ==> SoundSender(site, authed, tls, input, s.value.from) && !Without(s.value.from, '@'))
        && (s.None? ==> forall from :: !SoundSender(site, authed, tls, input, from))
  {
    if input.parsed.Some? {
      var addr := input.parsed.value;
      SplitNoAt(addr);
      if site.normDomain(DomainOf(addr)).Some? {
        SplitAddress(UserOf(addr), site.normDomain(DomainOf(addr)).value);
      }
    }
  }

  lemma {:induction false} SenderAllowed(mode: Mode, site: Site, log: seq<Event>, input: Input)
    requires input.MailCmd? && Sender(site, Authed(log), TlsOn(mode, log), input).Some?
    requires mode.submission ==> Authed(log)
    ensures Allowed(mode, site, log, Sender(site, Authed(log), TlsOn(mode, log), input).value)
  {
    SenderMeaning(site, Authed(log), TlsOn(mode, log), input);
  }

  lemma {:induction false} SplitNoAt(addr: string)
    ensures Without(UserOf(addr), '@')
  {}

  // ---------------------------------------------------------------- safety of every transcript

  lemma {:induction false} ProperPrefix(mode: Mode, site: Site, log: seq<Event>, i: nat)
    requires Proper(mode, site, log) && i <= |log|
    ensures Proper(mode, site, log[..i])
    ensures i < |log| ==> Allowed(mode, site, log[..i], log[i])
  {
    if i < |log| {
      assert log[..|log| - 1][..i] == log[..i];
      ProperPrefix(mode, site, log[..|log| - 1], i);
    } else {
      assert log[..i] == log;
    }
  }

  lemma {:induction false} AuthedGrows(a: seq<Event>, b: seq<Event>)
    requires a <= b
    ensures Authed(a) ==> Authed(b)
    ensures TlsUp in a ==> TlsUp in b
  {
    assert forall e :: e in a ==> e in b;
  }

  lemma {:induction false} AuthNeedsTls(mode: Mode, site: Site, log: seq<Event>)
    requires Proper(mode, site, log)
    ensures Authed(log) ==> TlsOn(mode, log)
  {
    if log != [] {
      var n := |log| - 1;
      AuthNeedsTls(mode, site, log[..n]);
      AuthedGrows(log[..n], log);
      assert log == log[..n] + [log[n]];
    }
  }

  predicate StartsTransaction(e: Event) { e.Cleared? || e.MailAccepted? }

  // The recipients accepted in a stretch of the transcript.
  function Rcpts(es: seq<Event>): seq<string> {
    if es == [] then []
    else Rcpts(es[..|es| - 1]) + if es[|es| - 1].RcptAccepted? then [es[|es| - 1].addr] else []
  }

  // The transaction of a transcript is its last MAIL and the recipients accepted since.
  lemma {:induction false} CurrentMeaning(log: seq<Event>) returns (j: nat)
    requires Current(log).from != ""
    ensures j < |log| && log[j].MailAccepted? && Envelope(log[j].from, Rcpts(log[j + 1..])) == Current(log)
    ensures forall k :: j < k < |log| ==> !StartsTransaction(log[k])
  {
    var n := |log| - 1;
    if log[n].MailAccepted? {
      j := n;
      assert log[n + 1..] == [];
    } else {
      j := CurrentMeaning(log[..n]);
      RcptsMore(log, j + 1);
    }
  }

  lemma {:induction false} RcptsMore(log: seq<Event>, from: nat)
    requires from < |log|
    ensures var n := |log| - 1;
      Rcpts(log[from..]) == Rcpts(log[..n][from..]) + if log[n].RcptAccepted? then [log[n].addr] else []
  {
    var es := log[from..];
    assert es[..|es| - 1] == log[..|log| - 1][from..];
  }

  lemma {:induction false} CurrentBounds(mode: Mode, site: Site, log: seq<Event>)
    requires Proper(mode, site, log)
    ensures |Current(log).to| <= MAX_RCPTS
    ensures Current(log).from == "" ==> Current(log).to == []
    ensures mode.submission && Current(log).from != "" ==> Authed(log)
  {
    if log != [] {
      CurrentBounds(mode, site, log[..|log| - 1]);
      AuthedGrows(log[..|log| - 1], log);
    }
  }

  // A recipient of mail: a user of a local domain whom the database knows, or anyone when the client has authenticated.
  predicate Rightful(site: Site, log: seq<Event>, e: Event)
    requires e.RcptAccepted?
  {
    Authed(log) || (DomainIn(e.addr, site.locals) && site.users(e.moment, e.addr) == Ok(true))
  }

  lemma {:induction false} AdmittedIsRightful(site: Site, log: seq<Event>, e: Event)
    requires Lawful(site) && e.RcptAccepted? && Admitted(site, Authed(log), e)
    ensures Rightful(site, log, e)
  {
    if DomainIn(e.asked, site.locals) {
      var user, domain := UserOf(e.asked), DomainOf(e.asked);
      SplitNoAt(e.asked);
      assert IsLocal(site, domain);
      SplitAddress(site.normUser(user).value, site.normDomain(domain).value);
    }
  }

  // Every message handed to the queue carries exactly the current transaction and has 1 to 101 recipients. Each of them
  // was admitted in it; with lawful normalisers it is a known user of a local domain, or the client has authenticated.
  // It has on a submission port, and only over TLS.
  lemma {:induction false} EveryPutIsSafe(mode: Mode, site: Site, log: seq<Event>, i: nat) returns (j: nat)
    requires Proper(mode, site, log) && i < |log| && log[i].PutCalled?
    ensures j < i && log[j].MailAccepted? && log[j].from == log[i].from && log[i].to == Rcpts(log[j + 1..i])
    ensures forall k :: j < k < i ==> !StartsTransaction(log[k])
    ensures forall addr :: addr in log[i].to ==> exists k :: j < k < i && Safe(site, log, i, k) && log[k].addr == addr
    ensures 0 < |log[i].to| <= MAX_RCPTS
    ensures mode.submission ==> Authed(log[..i])
    ensures Authed(log[..i]) ==> TlsOn(mode, log[..i])
  {
    var pre := log[..i];
    ProperPrefix(mode, site, log, i);
    CurrentBounds(mode, site, pre);
    AuthNeedsTls(mode, site, pre);
    j := CurrentMeaning(pre);
    assert pre[j + 1..] == log[j + 1..i];
    forall addr | addr in log[i].to ensures exists k :: j < k < i && Safe(site, log, i, k) && log[k].addr == addr {
      var m := RcptOf(log[j + 1..i], addr);
      var k := j + 1 + m;
      assert log[k] == log[j + 1..i][m];
      RcptIsSafe(mode, site, log, i, k);
    }
  }

  // The k-th event accepted a recipient of the message handed over at the i-th.
  ghost predicate Safe(site: Site, log: seq<Event>, i: nat, k: nat)
    requires k < i < |log|
  {
    && log[k].RcptAccepted? && Admitted(site, Authed(log[..k]), log[k])
    && (Lawful(site) ==> Rightful(site, log[..i], log[k]))
  }

  lemma {:induction false} RcptIsSafe(mode: Mode, site: Site, log: seq<Event>, i: nat, k: nat)
    requires Proper(mode, site, log) && k < i < |log| && log[k].RcptAccepted?
    ensures Safe(site, log, i, k)
  {
    ProperPrefix(mode, site, log, k);
    if Lawful(site) { AdmittedIsRightful(site, log[..k], log[k]); }
    AuthedGrows(log[..k], log[..i]);
  }

  lemma {:induction false} RcptOf(es: seq<Event>, addr: string) returns (m: nat)
    requires addr in Rcpts(es)
    ensures m < |es| && es[m].RcptAccepted? && es[m].addr == addr
  {
    m := |es| - 1;
    if !(es[m].RcptAccepted? && es[m].addr == addr) {
      m := RcptOf(es[..m], addr);
    }
  }

  // Among the questions put to the database of security levels, the one at this moment is the one this sender raised.
  predicate AskedAt(mode: Mode, site: Site, log: seq<Event>, i: nat, h: DomainInfo.History)
    requires i < |log| && log[i].MailAccepted?
  {
    var e, level := log[i], if TlsOn(mode, log[..i]) then DomainInfo.TLS_CLIENT else DomainInfo.PLAIN;
    && e.moment < |h|
    && h[e.moment].Asked? && h[e.moment].dir == DomainInfo.Incoming
    && h[e.moment].domain == DomainOf(e.written) && h[e.moment].level == level
    && h[e.moment].allowed == site.levels(e.moment, DomainOf(e.written), level)
  }

  // No downgrade of incoming mail: a sender that passed SPF was accepted at a level no lower than the one in memory for
  // its domain, as written, and if the answers were right, no lower than every level allowed before, back to the last
  // time it was cleared.
  lemma {:induction false} SenderNotDowngraded(mode: Mode, site: Site, log: seq<Event>, i: nat, h: DomainInfo.History)
    requires Proper(mode, site, log) && i < |log| && log[i].MailAccepted? && log[i].spf == SpfPass
    requires DomainInfo.Faithful(h) && AskedAt(mode, site, log, i, h)
    ensures var level := if TlsOn(mode, log[..i]) then DomainInfo.TLS_CLIENT else DomainInfo.PLAIN;
      DomainInfo.NotLower(h[..log[i].moment], DomainInfo.Incoming, DomainOf(log[i].written), level)
  {
    ProperPrefix(mode, site, log, i);
    DomainInfo.AllowedIsNotLower(h, log[i].moment);
  }

  // Lower-casing is such a normaliser if the local domains are in lower case.
  lemma {:induction false} LowerCaseSite(site: Site)
    requires forall s :: site.normUser(s) == Some(ToLower(s))
    requires forall s :: site.normDomain(s) == Some(ToLower(s))
    requires forall d :: d in site.locals ==> ToLower(d) == d
    ensures Lawful(site)
  {
    forall user | Without(user, '@') ensures Without(ToLower(user), '@') {
      assert forall i :: 0 <= i < |user| ==> ToLower(user)[i] == Lower(user[i]);
    }
  }

  // Whatever a client sends, the transcript of the connection is proper.
  lemma {:induction false} TranscriptIsProper(mode: Mode, site: Site, log: seq<Event>, inputs: seq<Input>)
    requires Proper(mode, site, log)
    ensures Proper(mode, site, Transcript(mode, site, log, inputs))
  {
    if inputs != [] {
      var n := |inputs| - 1;
      TranscriptIsProper(mode, site, log, inputs[..n]);
      EffectIsProper(mode, site, Transcript(mode, site, log, inputs[..n]), inputs[n]);
    }
  }

  lemma {:induction false} TwoEvents(mode: Mode, site: Site, log: seq<Event>, a: Event, b: Event)
    requires Proper(mode, site, log) && Allowed(mode, site, log, a) && Allowed(mode, site, log + [a], b)
    ensures Proper(mode, site, log + [a, b])
  {
    Recorded(mode, site, log, a);
    Recorded(mode, site, log + [a], b);
    assert log + [a, b] == log + [a] + [b];
  }

  lemma {:induction false} MailEffect(mode: Mode, site: Site, log: seq<Event>, input: Input)
    requires Proper(mode, site, log) && input.MailCmd?
    ensures Proper(mode, site, log + Effect(mode, site, log, input))
  {
    var es, sender := Effect(mode, site, log, input), Sender(site, Authed(log), TlsOn(mode, log), input);
    MailEvents(mode, site, log, input);
    Recorded(mode, site, log, Cleared);
    if es == [] {
      assert log + es == log;
    } else if sender.Some? {
      SenderAllowed(mode, site, log + [Cleared], input);
      TwoEvents(mode, site, log, Cleared, sender.value);
    }
  }

  lemma {:induction false} MailEvents(mode: Mode, site: Site, log: seq<Event>, input: Input)
    requires input.MailCmd?
    ensures var es, sender := Effect(mode, site, log, input), Sender(site, Authed(log), TlsOn(mode, log), input);
      es == [] || ((mode.submission ==> Authed(log)) && es == if sender.Some? then [Cleared, sender.value] else [Cleared])
  {}

  lemma {:induction false} DataEffect(mode: Mode, site: Site, log: seq<Event>, input: Input)
    requires Proper(mode, site, log) && input.DataCmd?
    ensures Proper(mode, site, log + Effect(mode, site, log, input))
  {
    var es := Effect(mode, site, log, input);
    if es == [] {
      assert log + es == log;
    } else {
      var put := PutCalled(Current(log).from, Current(log).to, input.bytes);
      Recorded(mode, site, log, put);
      if |es| == 2 { TwoEvents(mode, site, log, put, Cleared); }
    }
  }

  lemma {:induction false} OneEvent(mode: Mode, site: Site, log: seq<Event>, es: seq<Event>)
    requires Proper(mode, site, log) && |es| <= 1 && (|es| == 1 ==> Allowed(mode, site, log, es[0]))
    ensures Proper(mode, site, log + es)
  {
    if |es| == 0 {
      assert log + es == log;
    } else {
      Recorded(mode, site, log, es[0]);
      assert es == [es[0]];
    }
  }

  lemma {:induction false} TlsEffect(mode: Mode, site: Site, log: seq<Event>, input: Input)
    requires Proper(mode, site, log) && input.StartTls?
    ensures Proper(mode, site, log + Effect(mode, site, log, input))
  {
    var es := Effect(mode, site, log, input);
    TlsEvents(mode, site, log, input);
    if es == [] {
      assert log + es == log;
    } else {
      TwoEvents(mode, site, log, Cleared, TlsUp);
    }
  }

  lemma {:induction false} TlsEvents(mode: Mode, site: Site, log: seq<Event>, input: Input)
    requires input.StartTls?
    ensures Effect(mode, site, log, input) == [] || Effect(mode, site, log, input) == [Cleared, TlsUp]
  {}

  lemma {:induction false} OtherEffect(mode: Mode, site: Site, log: seq<Event>, input: Input)
    requires Proper(mode, site, log) && !input.MailCmd? && !input.DataCmd? && !input.StartTls?
    ensures Proper(mode, site, log + Effect(mode, site, log, input))
  {
    OneEvent(mode, site, log, Effect(mode, site, log, input));
  }

  lemma {:induction false} EffectIsProper(mode: Mode, site: Site, log: seq<Event>, input: Input)
    requires Proper(mode, site, log)
    ensures Proper(mode, site, log + Effect(mode, site, log, input))
  {
    if input.MailCmd? {
      MailEffect(mode, site, log, input);
    } else if input.DataCmd? {
      DataEffect(mode, site, log, input);
    } else if input.StartTls? {
      TlsEffect(mode, site, log, input);
    } else {
      OtherEffect(mode, site, log, input);
    }
  }
}
