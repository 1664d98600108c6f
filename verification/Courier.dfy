/** internal/courier/smtp.go: delivering one message to the mail servers of a domain.
  * The network's answers are parameters; every step that matters is logged as an event.
  */
module Courier {
  import opened Text
  import opened DomainInfo
  import opened Sts

  datatype Reply = Accepted | Transient | Permanent

  // How one connection to a server would go, step by step.
  datatype Link = Link(
    dials: bool, opens: bool, greets: bool,  // dial, NewClient, Hello
    startTls: bool,                          // the server offers STARTTLS
    certificate: Option<bool>,               // None: the jump to TLS fails; otherwise whether the certificate is valid
    saved: bool,                             // whether the level can be written to the database
    mail: Reply, data: Reply, write: Reply, close: Reply)
  {
    predicate Reached() { dials && opens && greets }
    predicate TlsFails() { Reached() && startTls && certificate.None? }
    function Level(skipTls: bool): nat {
      if !startTls || skipTls then PLAIN
      else if certificate == Some(true) then TLS_SECURE
      else TLS_INSECURE
    }
    // The answer to the transfer: that of the first step that is not accepted.
    function Transfer(): Reply {
      if !mail.Accepted? then mail
      else if !data.Accepted? then data
      else if !write.Accepted? then write
      else close
    }
  }

  datatype Step =
    | Dialled(mx: string)
    | Checked(level: nat, allowed: bool, write: Write)
    | Sent(mx: string, level: nat, reply: Reply)  // MAIL and RCPT were sent, and what came of it

  predicate Enforced(policy: Option<Policy>) { policy.Some? && policy.value.mode == ENFORCE }

  ghost predicate Permits(policy: Option<Policy>, mx: string, ascii: Ascii) {
    policy.Some? ==> Allows(policy.value, mx, ascii)
  }

  // ---------------------------------------------------------------- what a connection amounts to

  // The server can be reached and offers STARTTLS, but the jump to TLS fails: it is dialled again, without TLS.
  predicate Retried(first: Link) {
    first.dials && first.opens && first.greets && first.startTls && first.certificate.None?
  }

  predicate Connected(first: Link, second: Link) {
    if Retried(first) then second.dials && second.opens && second.greets else first.dials && first.opens && first.greets
  }

  // Over TLS, and over TLS with a valid certificate.
  predicate Encrypted(first: Link) { first.startTls && !Retried(first) }

  predicate Secured(first: Link) { Encrypted(first) && first.certificate == Some(true) }

  // The level of the connection.
  predicate LevelIs(first: Link, level: nat) {
    && (level == TLS_SECURE <==> Secured(first))
    && (level == TLS_INSECURE <==> Encrypted(first) && !Secured(first))
    && (level == PLAIN <==> !Encrypted(first))
  }

  // What the server said to the whole of the message: it accepted all four steps, or the first it did not accept it
  // refused for good.
  predicate ReplyIs(c: Link, reply: Reply) {
    && (reply.Accepted? <==> c.mail.Accepted? && c.data.Accepted? && c.write.Accepted? && c.close.Accepted?)
    && (reply.Permanent? <==>
          || c.mail.Permanent?
          || (c.mail.Accepted? && c.data.Permanent?)
          || (c.mail.Accepted? && c.data.Accepted? && c.write.Permanent?)
          || (c.mail.Accepted? && c.data.Accepted? && c.write.Accepted? && c.close.Permanent?))
  }

  // The message was sent over this connection.
  predicate SentOver(first: Link, second: Link, level: nat, reply: Reply) {
    Connected(first, second) && LevelIs(first, level) && ReplyIs(if Retried(first) then second else first, reply)
  }

  // It may be: the level is no lower than the one known, and under an enforced policy the certificate is valid.
  ghost predicate MaySend(first: Link, second: Link, known: nat, policy: Option<Policy>) {
    && Connected(first, second)
    && (forall level :: 0 <= level && LevelIs(first, level) ==> level >= known)
    && (policy.Some? && policy.value.mode == "enforce" ==> Secured(first))
  }

  lemma {:induction false} LinkMeaning(first: Link, second: Link)
    ensures var link := if first.TlsFails() then second else first;
      && (first.TlsFails() <==> Retried(first)) && (link.Reached() <==> Connected(first, second))
      && LevelIs(first, link.Level(first.TlsFails())) && ReplyIs(link, link.Transfer())
  {}

  lemma {:induction false} SendMeaning(first: Link, second: Link, level: nat, known: nat, policy: Option<Policy>)
    requires LevelIs(first, level)
    ensures MaySend(first, second, known, policy) <==>
      Connected(first, second) && level >= known && (Enforced(policy) ==> level == TLS_SECURE)
  {}

  // ---------------------------------------------------------------- properties of a log

  // MAIL goes out only right after an allowed check at the level in use, and under an enforced policy only on a
  // connection with a valid certificate.
  ghost predicate Guarded(steps: seq<Step>, policy: Option<Policy>) {
    forall k :: 0 <= k < |steps| && steps[k].Sent? ==> GuardedAt(steps, policy, k)
  }

  predicate GuardedAt(steps: seq<Step>, policy: Option<Policy>, k: nat)
    requires k < |steps| && steps[k].Sent?
  {
    && k > 0 && steps[k - 1].Checked? && steps[k - 1].level == steps[k].level && steps[k - 1].allowed
    && (policy.Some? && policy.value.mode == "enforce" ==> steps[k].level == TLS_SECURE)
  }

  // Servers in `mxs` that the policy permits are the only ones contacted.
  ghost predicate OnlyTo(steps: seq<Step>, mxs: seq<string>, policy: Option<Policy>, ascii: Ascii) {
    forall k :: 0 <= k < |steps| && !steps[k].Checked? ==> steps[k].mx in mxs && Permits(policy, steps[k].mx, ascii)
  }

  // The message was sent on at most once, at the end, with this reply.
  ghost predicate SentOnce(steps: seq<Step>, reply: Reply) {
    forall k :: 0 <= k < |steps| && steps[k].Sent? ==> k == |steps| - 1 && steps[k].reply == reply
  }

  // No server accepted the message or refused it for good.
  ghost predicate Unsettled(steps: seq<Step>) {
    forall k :: 0 <= k < |steps| && steps[k].Sent? ==> steps[k].reply.Transient?
  }

  // Only the last step can have been an acceptance or a refusal for good.
  ghost predicate SettledLast(steps: seq<Step>) {
    forall k :: 0 <= k < |steps| - 1 && steps[k].Sent? ==> steps[k].reply.Transient?
  }

  // The servers that were dialled, one after the other.
  function Contacts(steps: seq<Step>): seq<string> {
    if steps == [] then []
    else Contacts(steps[..|steps| - 1]) + if steps[|steps| - 1].Dialled? then [steps[|steps| - 1].mx] else []
  }

  // What the security level database is asked.
  function Questions(steps: seq<Step>, domain: string): seq<Event> {
    if steps == [] then []
    else
      var before := Questions(steps[..|steps| - 1], domain);
      match steps[|steps| - 1]
      case Checked(level, allowed, write) => before + [Asked(Outgoing, domain, level, allowed, write)]
      case _ => before
  }

  lemma {:induction false} GuardedAppend(a: seq<Step>, b: seq<Step>, policy: Option<Policy>)
    requires Guarded(a, policy) && Guarded(b, policy)
    ensures Guarded(a + b, policy)
  {
    var s := a + b;
    forall k | 0 <= k < |s| && s[k].Sent? ensures GuardedAt(s, policy, k) {
      if k < |a| {
        assert GuardedAt(a, policy, k);
      } else {
        assert b[k - |a|].Sent? && GuardedAt(b, policy, k - |a|);
      }
    }
  }

  lemma {:induction false} ContactsAppend(a: seq<Step>, b: seq<Step>)
    ensures Contacts(a + b) == Contacts(a) + Contacts(b)
  {
    if b == [] {
      assert a + b == a;
    } else {
      var n := |b| - 1;
      ContactsAppend(a, b[..n]);
      assert (a + b)[..|a + b| - 1] == a + b[..n];
    }
  }

  lemma {:induction false} QuestionsAppend(a: seq<Step>, b: seq<Step>, domain: string)
    ensures Questions(a + b, domain) == Questions(a, domain) + Questions(b, domain)
  {
    if b == [] {
      assert a + b == a;
    } else {
      var n := |b| - 1;
      QuestionsAppend(a, b[..n], domain);
      assert (a + b)[..|a + b| - 1] == a + b[..n];
    }
  }

  // ---------------------------------------------------------------- one server

  // attempt.deliver: at most two connections, the second without TLS.
  method AttemptDeliver(db: DB, domain: string, policy: Option<Policy>, mx: string, first: Link, second: Link)
    returns (reply: Reply, ghost steps: seq<Step>)
    requires db.Valid()
    modifies db
    ensures db.Valid()
    ensures db.history == old(db.history) + Questions(steps, domain)
    ensures OneServer(steps, policy, mx) && steps != []
    ensures Contacts(steps) == if Retried(first) then [mx, mx] else [mx]
    ensures SentOnce(steps, reply)
    ensures Truthful(steps, first, second)
    ensures var sends := MaySend(first, second, LevelOf(Lookup(old(db.info), domain), Outgoing), policy);
      if sends then steps[|steps| - 1].Sent? else NothingSent(steps) && reply.Transient?
  {
    var link, skipTls := first, false;
    steps := [Dialled(mx)];
    LinkMeaning(first, second);
    if first.TlsFails() {
      link, skipTls := second, true;
      steps := [Dialled(mx), Dialled(mx)];
    }
    LogDials(steps, policy, mx, domain, first, second);
    if !link.Reached() {
      return Transient, steps;
    }
    var level := link.Level(skipTls);
    SendMeaning(first, second, level, LevelOf(Lookup(db.info, domain), Outgoing), policy);
    var allowed;
    ghost var write;
    allowed, write := db.SecLevel(Outgoing, domain, level, link.saved);
    LogCheck(steps, policy, level, allowed, write, mx, domain, first, second);
    steps := steps + [Checked(level, allowed, write)];
    if !allowed || (Enforced(policy) && level != TLS_SECURE) {
      return Transient, steps;
    }
    LogSent(steps, policy, level, link.Transfer(), mx, domain, first, second);
    steps := steps + [Sent(mx, level, link.Transfer())];
    return link.Transfer(), steps;
  }

  // The log of dealing with one server.
  ghost predicate OneServer(steps: seq<Step>, policy: Option<Policy>, mx: string) {
    Guarded(steps, policy) && forall k :: 0 <= k < |steps| && !steps[k].Checked? ==> steps[k].mx == mx
  }

  // The log says how the connection to the server was.
  ghost predicate Truthful(steps: seq<Step>, first: Link, second: Link) {
    && (forall k :: 0 <= k < |steps| && steps[k].Sent? ==> SentOver(first, second, steps[k].level, steps[k].reply))
    && (forall k :: 0 <= k < |steps| && steps[k].Checked? ==> LevelIs(first, steps[k].level))
  }

  predicate NothingSent(steps: seq<Step>) {
    forall k :: 0 <= k < |steps| ==> !steps[k].Sent?
  }

  lemma {:induction false} LogDials(steps: seq<Step>, policy: Option<Policy>, mx: string, domain: string, first: Link,
      second: Link)
    requires steps == [Dialled(mx)] || steps == [Dialled(mx), Dialled(mx)]
    ensures OneServer(steps, policy, mx) && NothingSent(steps) && Questions(steps, domain) == []
    ensures Contacts(steps) == (if |steps| == 1 then [mx] else [mx, mx]) && Truthful(steps, first, second)
  {
    assert [Dialled(mx)][..0] == [] && [Dialled(mx), Dialled(mx)][..1] == [Dialled(mx)];
    assert Contacts([Dialled(mx)]) == [] + [mx] && Questions([Dialled(mx)], domain) == [];
  }

  lemma {:induction false} LogCheck(steps: seq<Step>, policy: Option<Policy>, level: nat, allowed: bool, write: Write,
      mx: string, domain: string, first: Link, second: Link)
    requires OneServer(steps, policy, mx) && NothingSent(steps)
    requires Truthful(steps, first, second) && LevelIs(first, level)
    ensures var all := steps + [Checked(level, allowed, write)];
      && Truthful(all, first, second) && OneServer(all, policy, mx) && NothingSent(all)
      && Contacts(all) == Contacts(steps)
      && Questions(all, domain) == Questions(steps, domain) + [Asked(Outgoing, domain, level, allowed, write)]
  {
    assert (steps + [Checked(level, allowed, write)])[..|steps|] == steps;
  }

  lemma {:induction false} LogSent(steps: seq<Step>, policy: Option<Policy>, level: nat, reply: Reply, mx: string,
      domain: string, first: Link, second: Link)
    requires OneServer(steps, policy, mx) && NothingSent(steps) && steps != []
    requires Truthful(steps, first, second) && SentOver(first, second, level, reply)
    requires var last := steps[|steps| - 1]; last.Checked? && last.level == level && last.allowed
    requires policy.Some? && policy.value.mode == "enforce" ==> level == TLS_SECURE
    ensures var all := steps + [Sent(mx, level, reply)];
      && OneServer(all, policy, mx) && SentOnce(all, reply) && all[|all| - 1].Sent? && Contacts(all) == Contacts(steps)
      && Truthful(all, first, second) && Questions(all, domain) == Questions(steps, domain)
  {
    var all := steps + [Sent(mx, level, reply)];
    assert all[..|steps|] == steps;
    assert all[|steps|] == Sent(mx, level, reply) && all[|steps| - 1] == steps[|steps| - 1];
  }

  // ---------------------------------------------------------------- all servers of a domain

  datatype Records = Hosts(names: seq<string>) | NotFound | Failed(permanent: bool)

  const MAX_MXS := 5

  // lookupMXs: the servers of a domain, by priority, capped; the domain itself when it has no MX records.
  method LookupMXs(domain: Option<string>, records: Records) returns (mxs: Result<seq<string>, bool>)
    ensures domain.None? ==> mxs == Err(true)
    ensures domain.Some? && records.Failed? ==> mxs == Err(records.permanent)
    ensures domain.Some? && records.NotFound? ==> mxs == Ok([domain.value])
    ensures domain.Some? && records.Hosts? ==>
      mxs.Ok? && mxs.value <= records.names && |mxs.value| == if |records.names| < 5 then |records.names| else 5
  {
    if domain.None? {
      return Err(true);
    }
    var found: seq<string> := [];
    match records {
      case Failed(permanent) =>
        return Err(permanent);
      case NotFound =>
        found := [domain.value];
      case Hosts(names) =>
        for i := 0 to |names|
          invariant found == names[..i]
        {
          found := found + [names[i]];
        }
        assert found == names;
    }
    if |found| > MAX_MXS {
      found := found[..MAX_MXS];
    }
    return Ok(found);
  }

  // The servers that are dialled for the first n of a list: those the policy permits, in their order, once each, or
  // twice if the jump to TLS fails.
  ghost function Plan(mxs: seq<string>, n: nat, policy: Option<Policy>, ascii: Ascii, network: nat -> (Link, Link))
    : seq<string>
    requires n <= |mxs|
  {
    if n == 0 then []
    else
      var mx := mxs[n - 1];
      Plan(mxs, n - 1, policy, ascii, network)
        + if !Permits(policy, mx, ascii) then [] else if Retried(network(n - 1).0) then [mx, mx] else [mx]
  }

  // The log of trying a list of servers.
  ghost predicate Tried(steps: seq<Step>, mxs: seq<string>, policy: Option<Policy>, ascii: Ascii) {
    Guarded(steps, policy) && OnlyTo(steps, mxs, policy, ascii)
  }

  // One of the servers, unless the policy forbids it.
  method TryServer(db: DB, domain: string, policy: Option<Policy>, ascii: Ascii, mxs: seq<string>, i: nat,
      network: nat -> (Link, Link), ghost steps: seq<Step>) returns (reply: Reply, ghost more: seq<Step>)
    requires db.Valid() && i < |mxs| && Progress(steps, mxs, i, policy, ascii, network) && Unsettled(steps)
    modifies db
    ensures db.Valid() && db.history == old(db.history) + Questions(more, domain)
    ensures Progress(steps + more, mxs, i + 1, policy, ascii, network) && SettledLast(steps + more)
    ensures if reply.Transient? then Unsettled(steps + more) else Answered(reply, steps + more, mxs, network, i + 1)
  {
    var permitted := true;
    if policy.Some? {
      permitted := MXIsAllowed(policy.value, mxs[i], ascii);
    }
    if !permitted {
      ProgressSkipped(steps, mxs, i, policy, ascii, network);
      assert steps + [] == steps;
      return Transient, [];
    }
    reply, more := AttemptDeliver(db, domain, policy, mxs[i], network(i).0, network(i).1);
    ProgressTried(steps, more, mxs, i, policy, ascii, network);
    UnsettledSoFar(steps, more, reply);
    if !reply.Transient? {
      AnswerGiven(steps, more, reply, mxs, i, policy, network);
    }
  }

  // Deliver (with a policy from the cache, or none) and Forward (without): the servers in turn, until one accepts
  // or refuses for good. Nothing was accepted before the last step, so at most one server took the message.
  method TryServers(
    db: DB, domain: string, policy: Option<Policy>, ascii: Ascii, mxs: seq<string>, network: nat -> (Link, Link))
    returns (reply: Reply, ghost steps: seq<Step>, ghost last: nat)
    requires db.Valid()
    modifies db
    ensures db.Valid()
    ensures db.history == old(db.history) + Questions(steps, domain)
    ensures Tried(steps, mxs, policy, ascii)
    ensures SettledLast(steps)
    ensures AllSentOver(steps, mxs, network)
    ensures last <= |mxs| && Contacts(steps) == Plan(mxs, last, policy, ascii, network)
    ensures if reply.Transient? then last == |mxs| && Unsettled(steps) else Answered(reply, steps, mxs, network, last)
  {
    steps, last := [], 0;
    for i := 0 to |mxs|
      invariant db.Valid()
      invariant db.history == old(db.history) + Questions(steps, domain)
      invariant Progress(steps, mxs, i, policy, ascii, network) && Unsettled(steps)
    {
      ghost var more;
      reply, more := TryServer(db, domain, policy, ascii, mxs, i, network, steps);
      QuestionsAppend(steps, more, domain);
      Assoc(old(db.history), Questions(steps, domain), Questions(more, domain));
      steps := steps + more;
      if !reply.Transient? {
        return reply, steps, i + 1;
      }
    }
    return Transient, steps, |mxs|;
  }

  // Whatever was sent was sent to one of the servers, over the connection to it.
  ghost predicate AllSentOver(steps: seq<Step>, mxs: seq<string>, network: nat -> (Link, Link)) {
    forall k :: 0 <= k < |steps| && steps[k].Sent? ==> exists i: nat :: SentTo(steps[k], mxs, network, i)
  }

  predicate SentTo(step: Step, mxs: seq<string>, network: nat -> (Link, Link), i: nat)
    requires step.Sent?
  {
    i < |mxs| && step.mx == mxs[i] && SentOver(network(i).0, network(i).1, step.level, step.reply)
  }

  lemma {:induction false} SentOverSoFar(steps: seq<Step>, more: seq<Step>, mxs: seq<string>, i: nat,
      network: nat -> (Link, Link))
    requires AllSentOver(steps, mxs, network) && i < |mxs|
    requires forall k :: 0 <= k < |more| && more[k].Sent? ==> SentTo(more[k], mxs, network, i)
    ensures AllSentOver(steps + more, mxs, network)
  {
    var all := steps + more;
    forall k | 0 <= k < |all| && all[k].Sent? ensures exists j: nat :: SentTo(all[k], mxs, network, j) {
      if k < |steps| {
        assert all[k] == steps[k];
      } else {
        assert all[k] == more[k - |steps|] && SentTo(more[k - |steps|], mxs, network, i);
      }
    }
  }

  // The reply is what the last of the servers tried said.
  ghost predicate Answered(
    reply: Reply, steps: seq<Step>, mxs: seq<string>, network: nat -> (Link, Link), last: nat)
  {
    && steps != [] && steps[|steps| - 1].Sent? && steps[|steps| - 1].reply == reply
    && last > 0 && SentTo(steps[|steps| - 1], mxs, network, last - 1)
  }

  lemma {:induction false} AnswerGiven(steps: seq<Step>, more: seq<Step>, reply: Reply, mxs: seq<string>, i: nat,
      policy: Option<Policy>, network: nat -> (Link, Link))
    requires i < |mxs| && more != [] && more[|more| - 1].Sent? && SentOnce(more, reply)
    requires OneServer(more, policy, mxs[i]) && Truthful(more, network(i).0, network(i).1)
    ensures Answered(reply, steps + more, mxs, network, i + 1)
  {
    assert (steps + more)[|steps + more| - 1] == more[|more| - 1];
  }

  lemma {:induction false} UnsettledSoFar(steps: seq<Step>, more: seq<Step>, reply: Reply)
    requires Unsettled(steps) && SentOnce(more, reply) && more != []
    ensures SettledLast(steps + more) && (reply.Transient? ==> Unsettled(steps + more))
  {
    var all := steps + more;
    assert forall k :: 0 <= k < |steps| ==> all[k] == steps[k];
    assert forall k :: |steps| <= k < |all| ==> all[k] == more[k - |steps|];
  }

  // The first i servers are done.
  ghost predicate Progress(steps: seq<Step>, mxs: seq<string>, i: nat, policy: Option<Policy>, ascii: Ascii,
      network: nat -> (Link, Link))
    requires i <= |mxs|
  {
    && Tried(steps, mxs, policy, ascii) && Contacts(steps) == Plan(mxs, i, policy, ascii, network)
    && AllSentOver(steps, mxs, network)
  }

  lemma {:induction false} ProgressTried(steps: seq<Step>, more: seq<Step>, mxs: seq<string>, i: nat,
      policy: Option<Policy>, ascii: Ascii, network: nat -> (Link, Link))
    requires i < |mxs| && Progress(steps, mxs, i, policy, ascii, network) && Permits(policy, mxs[i], ascii)
    requires OneServer(more, policy, mxs[i]) && Truthful(more, network(i).0, network(i).1)
    requires Contacts(more) == if Retried(network(i).0) then [mxs[i], mxs[i]] else [mxs[i]]
    ensures Progress(steps + more, mxs, i + 1, policy, ascii, network)
  {
    GuardedAppend(steps, more, policy);
    ContactsAppend(steps, more);
    SentOverSoFar(steps, more, mxs, i, network);
  }

  lemma {:induction false} ProgressSkipped(steps: seq<Step>, mxs: seq<string>, i: nat, policy: Option<Policy>,
      ascii: Ascii, network: nat -> (Link, Link))
    requires i < |mxs| && Progress(steps, mxs, i, policy, ascii, network) && !Permits(policy, mxs[i], ascii)
    ensures Progress(steps, mxs, i + 1, policy, ascii, network)
  {}

  // Deliver
  method Deliver(
    db: DB, domain: string, asciiDomain: Option<string>, records: Records, policy: Option<Policy>, ascii: Ascii,
    network: nat -> (Link, Link))
    returns (reply: Reply, ghost steps: seq<Step>, ghost mxs: seq<string>, ghost last: nat)
    requires db.Valid()
    modifies db
    ensures db.Valid()
    ensures db.history == old(db.history) + Questions(steps, domain)
    ensures Tried(steps, mxs, policy, ascii) && |mxs| <= 5
    ensures SettledLast(steps)
    ensures AllSentOver(steps, mxs, network)
    ensures last <= |mxs| && Contacts(steps) == Plan(mxs, last, policy, ascii, network)
    ensures reply.Accepted? || (reply.Permanent? && mxs != []) ==> Answered(reply, steps, mxs, network, last)
    ensures reply.Transient? ==> last == |mxs| && Unsettled(steps)
    ensures asciiDomain.None? || records == Failed(true) || records == Hosts([]) ==> reply.Permanent? && steps == []
    ensures asciiDomain.Some? && records == Failed(false) ==> reply.Transient? && steps == []
    ensures asciiDomain.Some? && records.NotFound? ==> mxs == [asciiDomain.value]
    ensures asciiDomain.Some? && records.Hosts? ==> mxs <= records.names
  {
    mxs, steps, last := [], [], 0;
    var found := LookupMXs(asciiDomain, records);
    if found.Err? {
      return if found.error then Permanent else Transient, [], [], 0;
    }
    if |found.value| == 0 {
      return Permanent, [], [], 0;
    }
    mxs := found.value;
    reply, steps, last := TryServers(db, domain, policy, ascii, found.value, network);
  }

  // No downgrade: whatever was sent was sent at a level no lower than the one in memory. If the answers of the database
  // were right, and they are if its writes succeeded, it is no lower than every level allowed for the domain before,
  // back to the last time it was cleared.
  lemma {:induction false} NeverDowngraded(before: History, steps: seq<Step>, domain: string, policy: Option<Policy>,
      k: nat)
    requires Faithful(before + Questions(steps, domain))
    requires Guarded(steps, policy) && k < |steps| && steps[k].Sent?
    ensures k > 0
    ensures NotLower(before + Questions(steps[..k - 1], domain), Outgoing, domain, steps[k].level)
  {
    assert GuardedAt(steps, policy, k);
    var past, level := before + Questions(steps[..k - 1], domain), steps[k].level;
    QuestionsPrefix(steps, k, domain);
    var h := before + Questions(steps, domain);
    assert h[|past|] == Asked(Outgoing, domain, level, true, steps[k - 1].write) && h[..|past|] == past;
    AllowedIsNotLower(h, |past|);
  }

  lemma {:induction false} QuestionsPrefix(steps: seq<Step>, k: nat, domain: string)
    requires 0 < k <= |steps| && steps[k - 1].Checked?
    ensures Questions(steps[..k - 1], domain)
         + [Asked(Outgoing, domain, steps[k - 1].level, steps[k - 1].allowed, steps[k - 1].write)]
         <= Questions(steps, domain)
  {
    assert steps[..k][..k - 1] == steps[..k - 1];
    assert steps == steps[..k] + steps[k..];
    QuestionsAppend(steps[..k], steps[k..], domain);
  }
}
