/** What a run of the mail queue (internal/queue/queue.go) leaves behind: a log of the steps that matter, and what
  * follows from a log in which every step was allowed.
  */
module QueueLog {
  import opened Text

  type Id = string

  // What a courier says about a recipient.
  datatype Reply = Accepted | Transient | Permanent

  datatype Event =
    | Filed(id: Id, from: string, count: nat, at: int, about: Option<Id>)  // Put wrote the file; `about`: it is a DSN
    | Taken(id: Id)                            // Put returned the id
    | RoundStarted(id: Id, at: int)            // a turn of the loop over the recipients
    | Handed(id: Id, rcpt: nat)                // a recipient is handed to a courier
    | Settled(id: Id, rcpt: nat, reply: Reply) // the courier accepted or refused it for good
    | Deferred(id: Id, rcpt: nat)              // the courier asks to try again later
    | Saved(id: Id)                            // WriteTo succeeded
    | SaveFailed(id: Id)
    | GaveUp(id: Id, at: int)                  // the time limit ended the loop
    | DsnRefused(id: Id)                       // the DSN could not be built, or its Put returned an error
    | Removed(id: Id)                          // the file is gone
    | Crashed

  type Log = seq<Event>

  datatype Origin = Origin(from: string, count: nat, at: int, about: Option<Id>)

  // How an item was filed.
  function OriginOf(log: Log, id: Id): Option<Origin> {
    if log == [] then None
    else match log[|log| - 1]
      case Filed(other, from, count, at, about) =>
        if other == id then Some(Origin(from, count, at, about)) else OriginOf(log[..|log| - 1], id)
      case _ => OriginOf(log[..|log| - 1], id)
  }

  // The answer for a recipient that is kept in memory, if there is one; after a crash, what the file has.
  function AnswerOf(log: Log, id: Id, r: nat): Option<Reply>
    decreases |log|, 1
  {
    if log == [] then None
    else
      var before := log[..|log| - 1];
      match log[|log| - 1]
      case Settled(other, rcpt, reply) => if other == id && rcpt == r then Some(reply) else AnswerOf(before, id, r)
      case Crashed => FileAnswer(before, id, r)
      case _ => AnswerOf(before, id, r)
  }

  // The answer for a recipient in the file.
  function FileAnswer(log: Log, id: Id, r: nat): Option<Reply>
    decreases |log|, 0
  {
    if log == [] then None
    else
      var before := log[..|log| - 1];
      match log[|log| - 1]
      case Saved(other) => if other == id then AnswerOf(before, id, r) else FileAnswer(before, id, r)
      case _ => FileAnswer(before, id, r)
  }

  // The courier has answered for a recipient, or will not answer any more.
  predicate Returns(e: Event, id: Id, r: nat) {
    e.Crashed? || ((e.Settled? || e.Deferred?) && e.id == id && e.rcpt == r)
  }

  // A recipient has been handed to a courier that has not answered yet.
  predicate InFlight(log: Log, id: Id, r: nat) {
    log != [] &&
    var before, e := log[..|log| - 1], log[|log| - 1];
    e == Handed(id, r) || (!Returns(e, id, r) && InFlight(before, id, r))
  }

  lemma {:induction false} FlightSnoc(log: Log, e: Event, id: Id, r: nat)
    ensures InFlight(log + [e], id, r) <==> e == Handed(id, r) || (!Returns(e, id, r) && InFlight(log, id, r))
  {
    assert (log + [e])[..|log|] == log;
  }

  // The last write of the item since the last crash, if there was one, succeeded.
  predicate Clean(log: Log, id: Id) {
    log == [] ||
    var before := log[..|log| - 1];
    match log[|log| - 1]
    case Saved(other) => other == id || Clean(before, id)
    case SaveFailed(other) => other != id && Clean(before, id)
    case Crashed => true
    case _ => Clean(before, id)
  }

  lemma {:induction false} Snoc(log: Log, e: Event, id: Id, r: nat)
    ensures OriginOf(log + [e], id) ==
      (if e.Filed? && e.id == id then Some(Origin(e.from, e.count, e.at, e.about)) else OriginOf(log, id))
    ensures AnswerOf(log + [e], id, r) ==
      (if e.Settled? && e.id == id && e.rcpt == r then Some(e.reply)
       else if e.Crashed? then FileAnswer(log, id, r) else AnswerOf(log, id, r))
    ensures FileAnswer(log + [e], id, r) ==
      (if e.Saved? && e.id == id then AnswerOf(log, id, r) else FileAnswer(log, id, r))
    ensures Clean(log + [e], id) ==
      (if e == Saved(id) || e.Crashed? then true else if e == SaveFailed(id) then false else Clean(log, id))
  {
    assert (log + [e])[..|log|] == log;
  }

  // ---------------------------------------------------------------- allowed steps

  predicate OnDisk(log: Log, id: Id) { OriginOf(log, id).Some? && Removed(id) !in log }

  predicate AllAccepted(log: Log, id: Id, count: nat) { forall r :: 0 <= r < count ==> AnswerOf(log, id, r) == Some(Accepted) }

  predicate NoticeOf(log: Log, dsn: Id, id: Id) {
    OriginOf(log, dsn).Some? && OriginOf(log, dsn).value.about == Some(id)
  }

  // Why an item may be removed: nothing is owed to its sender any more.
  ghost predicate Accounted(log: Log, id: Id) {
    OriginOf(log, id).Some? && var o := OriginOf(log, id).value;
      || o.from == "<>"
      || AllAccepted(log, id, o.count)
      || DsnRefused(id) in log
      || exists dsn :: NoticeOf(log, dsn, id)
  }

  // No recipient is pending, or the time limit has passed.
  ghost predicate Over(log: Log, id: Id) {
    OriginOf(log, id).Some? && var o := OriginOf(log, id).value;
      || (forall r :: 0 <= r < o.count ==> AnswerOf(log, id, r) != None)
      || exists at :: GaveUp(id, at) in log
  }

  predicate Bounces(log: Log, id: Id) {
    OriginOf(log, id).Some? && OriginOf(log, id).value.from != "<>"
    && exists r :: 0 <= r < OriginOf(log, id).value.count && AnswerOf(log, id, r) != Some(Accepted)
  }

  predicate PendingRcpt(log: Log, id: Id, r: nat) {
    OnDisk(log, id) && r < OriginOf(log, id).value.count && AnswerOf(log, id, r) == None
  }

  ghost predicate Allowed(log: Log, limit: int, e: Event) {
    match e
    case Filed(id, from, count, at, about) =>
      && OriginOf(log, id).None?
      && (about.Some? ==> from == "<>" && OnDisk(log, about.value) && Bounces(log, about.value))
    case Taken(id) => OnDisk(log, id)
    case RoundStarted(id, at) => OnDisk(log, id) && at - OriginOf(log, id).value.at < limit
    case Handed(id, r) => PendingRcpt(log, id, r) && !InFlight(log, id, r)
    case Settled(id, r, reply) => PendingRcpt(log, id, r) && reply != Transient && InFlight(log, id, r)
    case Deferred(id, r) => PendingRcpt(log, id, r) && InFlight(log, id, r)
    case Saved(id) => OnDisk(log, id)
    case SaveFailed(id) => OnDisk(log, id)
    case GaveUp(id, at) => OnDisk(log, id) && at - OriginOf(log, id).value.at >= limit
    case DsnRefused(id) => OnDisk(log, id) && Bounces(log, id)
    case Removed(id) => OnDisk(log, id) && Accounted(log, id) && Over(log, id)
    case Crashed => true
  }

  ghost predicate Proper(log: Log, limit: int) {
    log == [] || (Proper(log[..|log| - 1], limit) && Allowed(log[..|log| - 1], limit, log[|log| - 1]))
  }

  lemma {:induction false} ProperSnoc(log: Log, limit: int, e: Event)
    requires Proper(log, limit) && Allowed(log, limit, e)
    ensures Proper(log + [e], limit)
  {
    assert (log + [e])[..|log|] == log;
  }

  lemma {:induction false} ProperAt(log: Log, limit: int, k: nat)
    requires Proper(log, limit) && k < |log|
    ensures Proper(log[..k], limit) && Allowed(log[..k], limit, log[k])
  {
    var n := |log| - 1;
    if k < n {
      ProperAt(log[..n], limit, k);
      assert log[..n][..k] == log[..k];
    }
  }

  // ---------------------------------------------------------------- what follows

  // In the file a recipient is pending or has the answer it has in memory.
  lemma {:induction false} FileLagsBehind(log: Log, limit: int, id: Id, r: nat)
    requires Proper(log, limit)
    ensures FileAnswer(log, id, r) == None || FileAnswer(log, id, r) == AnswerOf(log, id, r)
  {
    if log != [] {
      FileLagsBehind(log[..|log| - 1], limit, id, r);
    }
  }

  // An answer that is kept was given.
  lemma {:induction false} AnswerWasGiven(log: Log, id: Id, r: nat)
    ensures AnswerOf(log, id, r).Some? ==> Settled(id, r, AnswerOf(log, id, r).value) in log
    ensures FileAnswer(log, id, r).Some? ==> Settled(id, r, FileAnswer(log, id, r).value) in log
  {
    if log != [] {
      AnswerWasGiven(log[..|log| - 1], id, r);
    }
  }

  lemma {:induction false} NotFiledYet(log: Log, limit: int, id: Id, r: nat)
    requires Proper(log, limit) && OriginOf(log, id).None?
    ensures AnswerOf(log, id, r) == FileAnswer(log, id, r) == None
  {
    if log != [] {
      NotFiledYet(log[..|log| - 1], limit, id, r);
    }
  }

  lemma {:induction false} StillFiled(log: Log, id: Id, k: nat)
    requires k <= |log| && OriginOf(log[..k], id).Some?
    ensures OriginOf(log, id).Some?
  {
    if k < |log| {
      var n := |log| - 1;
      assert log[..n][..k] == log[..k];
      StillFiled(log[..n], id, k);
    } else {
      assert log[..k] == log;
    }
  }

  // Without a crash in between, an answer stays.
  lemma {:induction false} SettledStays(log: Log, limit: int, j: nat, k: nat, id: Id, r: nat)
    requires Proper(log, limit) && j < k <= |log|
    requires log[j].Settled? && log[j].id == id && log[j].rcpt == r
    requires forall m :: j < m < k ==> log[m] != Crashed
    ensures AnswerOf(log[..k], id, r) == Some(log[j].reply)
  {
    assert log[..k][..k - 1] == log[..k - 1];
    ProperAt(log, limit, k - 1);
    if j < k - 1 {
      SettledStays(log, limit, j, k - 1, id, r);
    }
  }

  lemma {:induction false} SavedStays(log: Log, limit: int, m: nat, k: nat, id: Id, r: nat)
    requires Proper(log, limit) && m <= k <= |log| && FileAnswer(log[..m], id, r) != None
    ensures FileAnswer(log[..k], id, r) == AnswerOf(log[..k], id, r) == FileAnswer(log[..m], id, r)
  {
    if m < k {
      assert log[..k][..k - 1] == log[..k - 1];
      SavedStays(log, limit, m, k - 1, id, r);
      ProperAt(log, limit, k - 1);
    } else {
      ProperPrefix(log, limit, m);
      FileLagsBehind(log[..m], limit, id, r);
    }
  }

  lemma {:induction false} ProperPrefix(log: Log, limit: int, m: nat)
    requires Proper(log, limit) && m <= |log|
    ensures Proper(log[..m], limit)
  {
    if m < |log| {
      ProperAt(log, limit, m);
    } else {
      assert log[..m] == log;
    }
  }

  // A crash before any save of the item since step j.
  predicate LostBy(log: Log, j: nat, k: nat, id: Id)
    requires k <= |log|
  {
    exists m :: j < m < k && log[m] == Crashed && NoSave(log, j, m, id)
  }

  predicate NoSave(log: Log, j: nat, m: nat, id: Id)
    requires m <= |log|
  {
    forall i :: j < i < m ==> log[i] != Saved(id)
  }

  // As long as nothing of the item is saved, its file keeps a recipient as it was.
  lemma {:induction false} FileStays(log: Log, j: nat, m: nat, id: Id, r: nat)
    requires j <= m <= |log| && forall i :: j <= i < m ==> log[i] != Saved(id)
    ensures FileAnswer(log[..m], id, r) == FileAnswer(log[..j], id, r)
  {
    if j < m {
      assert log[..m][..m - 1] == log[..m - 1];
      FileStays(log, j, m - 1, id, r);
    }
  }

  // A recipient that is pending in memory and in the file stays so until it is settled.
  lemma {:induction false} PendingStays(log: Log, m: nat, k: nat, id: Id, r: nat)
    requires m <= k <= |log| && AnswerOf(log[..m], id, r) == FileAnswer(log[..m], id, r) == None
    requires forall i :: m <= i < k ==> !(log[i].Settled? && log[i].id == id && log[i].rcpt == r)
    ensures AnswerOf(log[..k], id, r) == FileAnswer(log[..k], id, r) == None
  {
    if m < k {
      assert log[..k][..k - 1] == log[..k - 1];
      PendingStays(log, m, k - 1, id, r);
    }
  }

  lemma {:induction false} LostIsPending(log: Log, limit: int, j: nat, m: nat, k: nat, id: Id, r: nat)
    requires Proper(log, limit) && j < m < k <= |log|
    requires log[j].Settled? && log[j].id == id && log[j].rcpt == r
    requires log[m] == Crashed && NoSave(log, j, m, id)
    requires forall i :: j < i < k ==> !(log[i].Settled? && log[i].id == id && log[i].rcpt == r)
    ensures AnswerOf(log[..k], id, r) == None
  {
    ProperAt(log, limit, j);
    FileLagsBehind(log[..j], limit, id, r);
    FileStays(log, j, m, id, r);
    assert log[..m + 1][..m] == log[..m];
    PendingStays(log, m + 1, k, id, r);
  }

  // The first crash after step j.
  lemma {:induction false} FirstCrash(log: Log, j: nat, k: nat) returns (m: nat)
    requires j < k <= |log|
    ensures j < m <= k && (forall i :: j < i < m ==> log[i] != Crashed) && (m < k ==> log[m] == Crashed)
  {
    m := j + 1;
    while m < k && log[m] != Crashed
      invariant j < m <= k && forall i :: j < i < m ==> log[i] != Crashed
    {
      m := m + 1;
    }
  }

  lemma {:induction false} KeptIsSettled(log: Log, limit: int, j: nat, k: nat, id: Id, r: nat)
    requires Proper(log, limit) && j < k <= |log| && !LostBy(log, j, k, id)
    requires log[j].Settled? && log[j].id == id && log[j].rcpt == r
    ensures AnswerOf(log[..k], id, r) == Some(log[j].reply)
  {
    var m := FirstCrash(log, j, k);
    if m == k {
      SettledStays(log, limit, j, k, id, r);
    } else {
      assert !NoSave(log, j, m, id);
      var i :| j < i < m && log[i] == Saved(id);
      SettledStays(log, limit, j, i, id, r);
      assert log[..i + 1][..i] == log[..i];
      SavedStays(log, limit, i + 1, k, id, r);
    }
  }

  // After its last settlement, a recipient is pending again if and only if a crash came before any save of the item.
  lemma {:induction false} PendingAgain(log: Log, limit: int, j: nat, k: nat, id: Id, r: nat)
    requires Proper(log, limit) && j < k <= |log|
    requires log[j].Settled? && log[j].id == id && log[j].rcpt == r
    requires forall i :: j < i < k ==> !(log[i].Settled? && log[i].id == id && log[i].rcpt == r)
    ensures AnswerOf(log[..k], id, r) == None <==> LostBy(log, j, k, id)
    ensures !LostBy(log, j, k, id) ==> AnswerOf(log[..k], id, r) == Some(log[j].reply)
  {
    if LostBy(log, j, k, id) {
      var m :| j < m < k && log[m] == Crashed && NoSave(log, j, m, id);
      LostIsPending(log, limit, j, m, k, id, r);
    } else {
      KeptIsSettled(log, limit, j, k, id, r);
    }
  }

  predicate HandedAt(log: Log, j: nat, k: nat, id: Id, r: nat)
    requires j < k <= |log|
  {
    log[j] == Handed(id, r) && forall m :: j < m < k ==> !Returns(log[m], id, r)
  }

  lemma {:induction false} FlightMeaning(log: Log, id: Id, r: nat)
    ensures InFlight(log, id, r) <==> exists j :: 0 <= j < |log| && HandedAt(log, j, |log|, id, r)
  {
    if log != [] {
      var n := |log| - 1;
      var before := log[..n];
      FlightMeaning(before, id, r);
      if log[n] == Handed(id, r) {
        assert HandedAt(log, n, |log|, id, r);
      } else if InFlight(log, id, r) {
        var j :| 0 <= j < n && HandedAt(before, j, n, id, r);
        assert HandedAt(log, j, |log|, id, r) by { assert forall m :: j < m < n ==> log[m] == before[m]; }
      } else if j :| 0 <= j < |log| && HandedAt(log, j, |log|, id, r) {
        assert HandedAt(before, j, n, id, r);
      }
    }
  }

  // Between two couriers for the same recipient there is an answer, or a crash.
  lemma {:induction false} AnswerBetween(log: Log, limit: int, j: nat, k: nat, id: Id, r: nat)
    requires Proper(log, limit) && j < k < |log| && log[j] == log[k] == Handed(id, r)
    ensures exists m :: j < m < k && Returns(log[m], id, r)
  {
    ProperAt(log, limit, k);
    FlightMeaning(log[..k], id, r);
    assert !HandedAt(log[..k], j, k, id, r);
    var m :| j < m < k && Returns(log[..k][m], id, r);
    assert log[m] == log[..k][m];
  }

  // An answer belongs to exactly one courier: the last one the recipient was handed to.
  lemma {:induction false} AnswerHasCourier(log: Log, limit: int, k: nat, id: Id, r: nat) returns (j: nat)
    requires Proper(log, limit) && k < |log| && Returns(log[k], id, r) && !log[k].Crashed?
    ensures j < k && HandedAt(log, j, k, id, r) && forall i :: j < i < k ==> log[i] != Handed(id, r)
  {
    ProperAt(log, limit, k);
    FlightMeaning(log[..k], id, r);
    var i :| 0 <= i < k && HandedAt(log[..k], i, k, id, r);
    j := i;
    assert HandedAt(log, j, k, id, r) by { assert forall m :: j < m < k ==> log[m] == log[..k][m]; }
    forall i | j < i < k ensures log[i] != Handed(id, r) {
      if log[i] == Handed(id, r) { AnswerBetween(log, limit, j, i, id, r); }
    }
  }

  // A recipient whose answer at the removal is anything but an acceptance was reported: a DSN about the item had been
  // put on disk, or that DSN was refused, unless the item came from the null sender.
  lemma {:induction false} UnreachedIsReported(log: Log, limit: int, k: nat, id: Id, r: nat)
    requires Proper(log, limit) && k < |log| && log[k] == Removed(id)
    requires OriginOf(log[..k], id).Some? && r < OriginOf(log[..k], id).value.count
    requires AnswerOf(log[..k], id, r) != Some(Accepted)
    ensures || OriginOf(log[..k], id).value.from == "<>"
            || DsnRefused(id) in log[..k]
            || exists dsn :: NoticeOf(log[..k], dsn, id)
  {
    ProperAt(log, limit, k);
    assert !AllAccepted(log[..k], id, OriginOf(log[..k], id).value.count);
  }

  // ---------------------------------------------------------------- rounds

  // A recipient has been handed over in the current round.
  predicate Tried(log: Log, id: Id, r: nat) {
    log != [] &&
    var before, e := log[..|log| - 1], log[|log| - 1];
    e == Handed(id, r) || (!e.Crashed? && !(e.RoundStarted? && e.id == id) && Tried(before, id, r))
  }

  lemma {:induction false} TriedSnoc(log: Log, e: Event, id: Id, r: nat)
    ensures Tried(log + [e], id, r) <==>
      e == Handed(id, r) || (!e.Crashed? && !(e.RoundStarted? && e.id == id) && Tried(log, id, r))
  {
    assert (log + [e])[..|log|] == log;
  }

  // The recipient was handed over at step i, in a round that has not been followed by another one, or by a crash.
  predicate TriedAt(log: Log, i: nat, id: Id, r: nat)
    requires i < |log|
  {
    log[i] == Handed(id, r) && forall m :: i < m < |log| ==> !log[m].Crashed? && !(log[m].RoundStarted? && log[m].id == id)
  }

  lemma {:induction false} TriedMeaning(log: Log, id: Id, r: nat)
    ensures Tried(log, id, r) <==> exists i :: 0 <= i < |log| && TriedAt(log, i, id, r)
  {
    if log != [] {
      var n := |log| - 1;
      TriedMeaning(log[..n], id, r);
      if log[n] == Handed(id, r) {
        assert TriedAt(log, n, id, r);
      } else if Tried(log, id, r) {
        var i :| 0 <= i < n && TriedAt(log[..n], i, id, r);
        assert TriedAt(log, i, id, r);
      } else if i :| 0 <= i < |log| && TriedAt(log, i, id, r) {
        assert TriedAt(log[..n], i, id, r);
      }
    }
  }

  // If a recipient was handed over in this round, is not in flight and has no answer, the courier put it off.
  lemma {:induction false} PutOff(log: Log, limit: int, id: Id, r: nat) returns (i: nat, m: nat)
    requires Proper(log, limit) && Tried(log, id, r) && !InFlight(log, id, r) && AnswerOf(log, id, r) == None
    ensures i < m < |log| && TriedAt(log, i, id, r) && log[m] == Deferred(id, r)
  {
    TriedMeaning(log, id, r);
    i :| 0 <= i < |log| && TriedAt(log, i, id, r);
    FlightMeaning(log, id, r);
    assert !HandedAt(log, i, |log|, id, r);
    m :| i < m < |log| && Returns(log[m], id, r);
    assert log[..|log|] == log;
    if log[m].Settled? { SettledStays(log, limit, m, |log|, id, r); }
  }

  // A removed item is never written, delivered or filed again.
  lemma {:induction false} RemovedIsFinal(log: Log, limit: int, j: nat, k: nat, id: Id)
    requires Proper(log, limit) && j < k < |log| && log[j] == Removed(id)
    ensures log[k].Crashed? || log[k].id != id
  {
    ProperAt(log, limit, k);
    assert log[..k][j] == Removed(id);
    ProperAt(log, limit, j);
    assert log[..k][..j] == log[..j];
    StillFiled(log[..k], id, j);
  }

  lemma {:induction false} OriginStays(log: Log, limit: int, id: Id, k: nat)
    requires Proper(log, limit) && k <= |log| && OriginOf(log[..k], id).Some?
    ensures OriginOf(log, id) == OriginOf(log[..k], id)
  {
    if k < |log| {
      var n := |log| - 1;
      assert log[..n][..k] == log[..k];
      OriginStays(log[..n], limit, id, k);
    } else {
      assert log[..k] == log;
    }
  }

  // Nothing is dropped: before an item is removed, every recipient was accepted by a courier, or it came from the null
  // sender, or a DSN about it had been put on disk, or that DSN was refused.
  lemma {:induction false} RemovedForAReason(log: Log, limit: int, k: nat, id: Id)
    requires Proper(log, limit) && k < |log| && log[k] == Removed(id)
    ensures OriginOf(log[..k], id).Some? && var o := OriginOf(log[..k], id).value;
      || o.from == "<>"
      || (forall r :: 0 <= r < o.count ==> Settled(id, r, Accepted) in log[..k])
      || DsnRefused(id) in log[..k]
      || exists dsn :: NoticeOf(log[..k], dsn, id)
  {
    ProperAt(log, limit, k);
    var o := OriginOf(log[..k], id).value;
    if AllAccepted(log[..k], id, o.count) {
      forall r | 0 <= r < o.count ensures Settled(id, r, Accepted) in log[..k] { AnswerWasGiven(log[..k], id, r); }
    }
  }

  // A recipient that is still pending when its item is removed was given the whole of the time limit.
  lemma {:induction false} GivenTheWholeLimit(log: Log, limit: int, k: nat, id: Id, r: nat)
    requires Proper(log, limit) && k < |log| && log[k] == Removed(id)
    requires OriginOf(log[..k], id).Some? && r < OriginOf(log[..k], id).value.count
    requires AnswerOf(log[..k], id, r) == None
    ensures exists j :: 0 <= j < k && log[j].GaveUp? && log[j].id == id
                     && log[j].at - OriginOf(log[..k], id).value.at >= limit
  {
    ProperAt(log, limit, k);
    var at :| GaveUp(id, at) in log[..k];
    var j :| 0 <= j < k && log[..k][j] == GaveUp(id, at);
    ProperAt(log, limit, j);
    assert log[..k][..j] == log[..j];
    ProperPrefix(log, limit, k);
    OriginStays(log[..k], limit, id, j);
  }

  // A DSN has the null sender and is about an item that has not, one of whose recipients was not reached.
  lemma {:induction false} NoticesEndThere(log: Log, limit: int, k: nat)
    requires Proper(log, limit) && k < |log| && log[k].Filed? && log[k].about.Some?
    ensures log[k].from == "<>"
    ensures var o := OriginOf(log[..k], log[k].about.value);
      && o.Some? && o.value.from != "<>" && o.value.about.None?
      && exists r :: 0 <= r < o.value.count && AnswerOf(log[..k], log[k].about.value, r) != Some(Accepted)
  {
    ProperAt(log, limit, k);
    ProperPrefix(log, limit, k);
    NoticeHasNullSender(log[..k], limit, log[k].about.value);
  }

  lemma {:induction false} NoticeHasNullSender(log: Log, limit: int, id: Id)
    requires Proper(log, limit) && OriginOf(log, id).Some?
    ensures OriginOf(log, id).value.about.Some? ==> OriginOf(log, id).value.from == "<>"
  {
    var n := |log| - 1;
    if !(log[n].Filed? && log[n].id == id) {
      NoticeHasNullSender(log[..n], limit, id);
    }
  }
}
