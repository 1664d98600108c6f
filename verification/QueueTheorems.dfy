/** What every run of the queue guarantees, over all interleavings, crashes and failures. */
module QueueTheorems {
  import opened Text
  import opened QueueLog
  import opened Queue
  import opened QueueSafety

  // A state that the queue can be in.
  ghost predicate Reachable(q: Queue) {
    exists now, actions :: Run(Empty(now, q.giveUpAfter), actions) == Some(q)
  }

  lemma {:induction false} ReachableInv(q: Queue)
    requires Reachable(q)
    ensures Inv(q)
  {
    var now, actions :| Run(Empty(now, q.giveUpAfter), actions) == Some(q);
    RunKeepsInv(now, q.giveUpAfter, actions);
  }

  // The reasons for which an item may be gone, all of them before it was removed.
  ghost predicate Excused(log: Log, id: Id, k: nat)
    requires k < |log|
  {
    && log[k] == Removed(id)
    && OriginOf(log[..k], id).Some?
    && var o := OriginOf(log[..k], id).value;
       || o.from == "<>"
       || (forall r :: 0 <= r < o.count ==> Settled(id, r, Accepted) in log[..k])
       || DsnRefused(id) in log[..k]
       || exists dsn :: NoticeOf(log[..k], dsn, id)
  }

  // Durability: an item that Put took stays on disk until every recipient was accepted by a courier, or a DSN about it
  // was on disk, or that DSN was refused, or it came from the null sender. Failed writes do not weaken this.
  lemma {:induction false} Durable(q: Queue, id: Id)
    requires Reachable(q) && Taken(id) in q.log
    ensures id in q.disk || exists k :: 0 <= k < |q.log| && Excused(q.log, id, k)
  {
    ReachableInv(q);
    assert DiskOk(q.log, q.disk, id);
    TakenWasFiled(q.log, q.giveUpAfter, id);
    if id !in q.disk {
      var k :| 0 <= k < |q.log| && q.log[k] == Removed(id);
      RemovedForAReason(q.log, q.giveUpAfter, k, id);
      assert Excused(q.log, id, k);
    }
  }

  lemma {:induction false} TakenWasFiled(log: Log, limit: int, id: Id)
    requires Proper(log, limit) && Taken(id) in log
    ensures OriginOf(log, id).Some?
  {
    var k :| 0 <= k < |log| && log[k] == Taken(id);
    ProperAt(log, limit, k);
    StillFiled(log, id, k);
  }

  // What a recipient's status says, in memory and in the file: whether a courier accepted it, or refused it for good.
  lemma {:induction false} StatusesAreAnswers(q: Queue, id: Id, r: nat)
    requires Reachable(q)
    ensures id in q.loops && r < |q.loops[id].item.statuses| ==>
      var status, answer := q.loops[id].item.statuses[r], AnswerOf(q.log, id, r);
      && (status == Pending <==> answer == None)
      && (status == Sent <==> answer == Some(Accepted))
      && (status == Failed <==> answer == Some(Permanent))
    ensures id in q.disk && r < |q.disk[id].statuses| ==>
      var status, answer := q.disk[id].statuses[r], FileAnswer(q.log, id, r);
      && (status == Pending <==> answer == None)
      && (status == Sent <==> answer == Some(Accepted))
      && (status == Failed <==> answer == Some(Permanent))
  {
    ReachableInv(q);
    assert id in q.loops ==> LoopOk(q.log, id, q.loops[id]);
    assert DiskOk(q.log, q.disk, id);
  }

  // An answer is kept if and only if some courier gave it, and the server did not crash before the item was saved.
  lemma {:induction false} AnswersAreKept(q: Queue, id: Id, r: nat, reply: Reply)
    requires Reachable(q)
    ensures AnswerOf(q.log, id, r) == Some(reply) <==>
      exists j :: 0 <= j < |q.log| && q.log[j] == Settled(id, r, reply) && !LostBy(q.log, j, |q.log|, id)
  {
    ReachableInv(q);
    var log := q.log;
    assert log[..|log|] == log;
    if j :| 0 <= j < |log| && log[j] == Settled(id, r, reply) && !LostBy(log, j, |log|, id) {
      KeptIsSettled(log, q.giveUpAfter, j, |log|, id, r);
    }
    if AnswerOf(log, id, r) == Some(reply) {
      var j := LastSettled(log, id, r);
      PendingAgain(log, q.giveUpAfter, j, |log|, id, r);
    }
  }

  lemma {:induction false} LastSettled(log: Log, id: Id, r: nat) returns (j: nat)
    requires AnswerOf(log, id, r).Some? || FileAnswer(log, id, r).Some?
    ensures j < |log| && log[j].Settled? && log[j].id == id && log[j].rcpt == r
    ensures forall i :: j < i < |log| ==> !(log[i].Settled? && log[i].id == id && log[i].rcpt == r)
  {
    var n := |log| - 1;
    if log[n].Settled? && log[n].id == id && log[n].rcpt == r {
      j := n;
    } else {
      j := LastSettled(log[..n], id, r);
    }
  }

  // Whoever a courier refused for good, or was given up on, is reported to the sender before the item is removed: a DSN
  // about it is on disk, or was refused, unless the sender is null.
  lemma {:induction false} RefusalsAreReported(q: Queue, k: nat, id: Id, r: nat)
    requires Reachable(q) && k < |q.log| && q.log[k] == Removed(id)
    requires OriginOf(q.log[..k], id).Some? && r < OriginOf(q.log[..k], id).value.count
    requires AnswerOf(q.log[..k], id, r) != Some(Accepted)
    ensures || OriginOf(q.log[..k], id).value.from == "<>"
            || DsnRefused(id) in q.log[..k]
            || exists dsn :: NoticeOf(q.log[..k], dsn, id)
  {
    ReachableInv(q);
    UnreachedIsReported(q.log, q.giveUpAfter, k, id, r);
  }

  // No recipient is passed over: when a loop sleeps, each pending recipient was handed over in the round that is over,
  // and put off by its courier.
  lemma {:induction false} NobodyIsPassedOver(q: Queue, id: Id, r: nat) returns (i: nat, m: nat)
    requires Reachable(q) && InPhase(q, id, Sleeping) && r < |q.loops[id].item.statuses|
    requires q.loops[id].item.statuses[r] == Pending
    ensures i < m < |q.log| && TriedAt(q.log, i, id, r) && q.log[m] == Deferred(id, r)
  {
    ReachableInv(q);
    assert LoopOk(q.log, id, q.loops[id]) && RoundOk(q.log, id, q.loops[id]) && PassedPending(q.loops[id], r);
    NoWorkers(q.log, id, q.loops[id]);
    assert FlightOk(q, id, r);
    i, m := PutOff(q.log, q.giveUpAfter, id, r);
  }

  // A DSN is on disk from when it is filed until it is itself removed for a reason, and none is ever sent about it.
  lemma {:induction false} NullSenderNeverBounces(q: Queue, id: Id, dsn: Id)
    requires Reachable(q) && NoticeOf(q.log, dsn, id)
    ensures OriginOf(q.log, dsn).value.from == "<>"
    ensures OriginOf(q.log, id).Some? && OriginOf(q.log, id).value.from != "<>"
  {
    ReachableInv(q);
    NoticeSenders(q.log, q.giveUpAfter, id, dsn);
  }

  lemma {:induction false} NoticeSenders(log: Log, limit: int, id: Id, dsn: Id)
    requires Proper(log, limit) && NoticeOf(log, dsn, id)
    ensures OriginOf(log, dsn).value.from == "<>"
    ensures OriginOf(log, id).Some? && OriginOf(log, id).value.from != "<>"
  {
    var n := |log| - 1;
    if log[n].Filed? && log[n].id == dsn {
      OriginStays(log, limit, id, n);
    } else {
      NoticeSenders(log[..n], limit, id, dsn);
      OriginStays(log, limit, id, n);
    }
  }

  // The file of an item is its memory with some recipients still pending.
  lemma {:induction false} FileIsPendingOrMemory(q: Queue, id: Id, r: nat)
    requires Reachable(q) && id in q.loops && id in q.disk && r < |q.loops[id].item.statuses|
    ensures |q.disk[id].statuses| == |q.loops[id].item.statuses|
    ensures q.disk[id].statuses[r] == Pending || q.disk[id].statuses[r] == q.loops[id].item.statuses[r]
  {
    ReachableInv(q);
    assert LoopOk(q.log, id, q.loops[id]) && DiskOk(q.log, q.disk, id);
    FileLagsBehind(q.log, q.giveUpAfter, id, r);
  }

  // After wg.Wait, if the last write of the item since the last crash succeeded, its file is exactly what is in memory.
  lemma {:induction false} FileAgreesAfterWait(q: Queue, id: Id)
    requires Reachable(q) && id in q.loops && !q.loops[id].phase.Dropping?
    requires q.loops[id].workers == map[] && Clean(q.log, id)
    ensures id in q.disk && q.disk[id] == q.loops[id].item
  {
    ReachableInv(q);
    LoopOnDisk(q, id);
    assert LoopOk(q.log, id, q.loops[id]) && DiskOk(q.log, q.disk, id);
    assert forall r :: !Settling(q.loops[id], r);
    assert q.disk[id].statuses == q.loops[id].item.statuses;
  }

  // In every run, a recipient that was settled at step j and not again before step k is pending at step k if and only
  // if the server crashed in between before the item was saved. Otherwise it keeps its status.
  lemma {:induction false} PendingAgainIff(q: Queue, j: nat, k: nat, id: Id, r: nat)
    requires Reachable(q) && j < k <= |q.log|
    requires q.log[j].Settled? && q.log[j].id == id && q.log[j].rcpt == r
    requires forall i :: j < i < k ==> !(q.log[i].Settled? && q.log[i].id == id && q.log[i].rcpt == r)
    ensures AnswerOf(q.log[..k], id, r) == None <==> LostBy(q.log, j, k, id)
    ensures !LostBy(q.log, j, k, id) ==> AnswerOf(q.log[..k], id, r) == Some(q.log[j].reply)
  {
    ReachableInv(q);
    PendingAgain(q.log, q.giveUpAfter, j, k, id, r);
  }

  // So without such a crash a recipient leaves the pending state once and is never handed to a courier again.
  lemma {:induction false} HandedUntilSettled(q: Queue, j: nat, k: nat, id: Id, r: nat)
    requires Reachable(q) && j < k < |q.log| && !LostBy(q.log, j, k, id)
    requires q.log[j].Settled? && q.log[j].id == id && q.log[j].rcpt == r
    ensures q.log[k] != Handed(id, r)
    ensures q.log[k].Settled? ==> q.log[k].id != id || q.log[k].rcpt != r
  {
    ReachableInv(q);
    KeptIsSettled(q.log, q.giveUpAfter, j, k, id, r);
    ProperAt(q.log, q.giveUpAfter, k);
  }

  // No recipient is with two couriers at once: in every run, between two handings over of it the first courier answered,
  // or the server crashed. Every answer is the answer to the last handing over.
  lemma {:induction false} OneCourierAtATime(q: Queue, j: nat, k: nat, id: Id, r: nat)
    requires Reachable(q) && j < k < |q.log| && q.log[j] == q.log[k] == Handed(id, r)
    ensures exists m :: j < m < k && Returns(q.log[m], id, r)
  {
    ReachableInv(q);
    AnswerBetween(q.log, q.giveUpAfter, j, k, id, r);
  }

  lemma {:induction false} AnswersTheLastCourier(q: Queue, k: nat, id: Id, r: nat) returns (j: nat)
    requires Reachable(q) && k < |q.log| && Returns(q.log[k], id, r) && !q.log[k].Crashed?
    ensures j < k && HandedAt(q.log, j, k, id, r) && forall i :: j < i < k ==> q.log[i] != Handed(id, r)
  {
    ReachableInv(q);
    j := AnswerHasCourier(q.log, q.giveUpAfter, k, id, r);
  }

  // A recipient is given up while pending only after the whole time limit.
  lemma {:induction false} PendingGetsTheLimit(q: Queue, k: nat, id: Id, r: nat)
    requires Reachable(q) && k < |q.log| && q.log[k] == Removed(id)
    requires OriginOf(q.log[..k], id).Some? && r < OriginOf(q.log[..k], id).value.count
    requires AnswerOf(q.log[..k], id, r) == None
    ensures exists j :: 0 <= j < k && q.log[j].GaveUp? && q.log[j].id == id
                     && q.log[j].at - OriginOf(q.log[..k], id).value.at >= q.giveUpAfter
  {
    ReachableInv(q);
    GivenTheWholeLimit(q.log, q.giveUpAfter, k, id, r);
  }

  // A removed file never reappears: not in the state where it is gone, nor in any later one.
  lemma {:induction false} NeverReappears(q: Queue, later: seq<Action>, id: Id)
    requires Reachable(q) && Removed(id) in q.log && Run(q, later).Some?
    ensures id !in Run(q, later).value.disk
  {
    ReachableInv(q);
    LaterInv(q, later);
    var p := Run(q, later).value;
    assert DiskOk(p.log, p.disk, id);
    assert Removed(id) in p.log by {
      var k :| 0 <= k < |q.log| && q.log[k] == Removed(id);
      assert p.log[k] == Removed(id);
    }
  }

  lemma {:induction false} LaterInv(q: Queue, actions: seq<Action>)
    requires Inv(q) && Run(q, actions).Some?
    ensures Inv(Run(q, actions).value) && q.log <= Run(q, actions).value.log
  {
    if actions != [] {
      var n := |actions| - 1;
      LaterInv(q, actions[..n]);
      NextKeepsInv(Run(q, actions[..n]).value, actions[n]);
    }
  }

  lemma {:induction false} OneMoreStep(q: Queue, a: Action)
    requires Reachable(q) && Enabled(q, a)
    ensures Reachable(Next(q, a))
  {
    var now, actions :| Run(Empty(now, q.giveUpAfter), actions) == Some(q);
    assert (actions + [a])[..|actions|] == actions;
    assert Run(Empty(now, q.giveUpAfter), actions + [a]) == Some(Next(q, a));
  }

  // Both ways to lose a status happen: the write fails and the server crashes later, or the server crashes between the
  // courier's answer and the write. Either way a recipient that a courier has accepted is handed over again.
  lemma {:induction false} LostSaveRedelivers(id: Id, from: string) returns (q: Queue)
    ensures Reachable(q)
    ensures q.log == [Filed(id, from, 1, 0, None), Taken(id), RoundStarted(id, 0), Handed(id, 0), Settled(id, 0, Accepted), SaveFailed(id),
                      Crashed, RoundStarted(id, 0), Handed(id, 0)]
  {
    q := AcceptedOnce(id, from);
    q := Step(q, Save(id, 0, false));
    q := Step(q, Crash);
    q := HandedAgain(q, id, from);
  }

  lemma {:induction false} CrashRedelivers(id: Id, from: string) returns (q: Queue)
    ensures Reachable(q)
    ensures q.log == [Filed(id, from, 1, 0, None), Taken(id), RoundStarted(id, 0), Handed(id, 0), Settled(id, 0, Accepted), Crashed, RoundStarted(id, 0), Handed(id, 0)]
  {
    q := AcceptedOnce(id, from);
    q := Step(q, Crash);
    q := HandedAgain(q, id, from);
  }

  // After a restart, the pending recipient of a file is handed over.
  lemma {:induction false} HandedAgain(p: Queue, id: Id, from: string) returns (q: Queue)
    requires Reachable(p) && p.now == 0 && p.giveUpAfter == 1 && id in p.toLoad
    requires p.disk == map[id := NewLetter(from, 0, 1)]
    ensures Reachable(q) && q.log == p.log + [RoundStarted(id, 0), Handed(id, 0)]
  {
    q := Step(p, LoadOne(id));
    q := Step(q, Check(id));
    q := Step(q, Launch(id));
  }

  lemma {:induction false} Step(q: Queue, a: Action) returns (p: Queue)
    requires Reachable(q) && Enabled(q, a)
    ensures Reachable(p) && p == Next(q, a)
  {
    OneMoreStep(q, a);
    p := Next(q, a);
  }

  lemma {:induction false} AcceptedOnce(id: Id, from: string) returns (q: Queue)
    ensures Reachable(q) && q.giveUpAfter == 1 && q.now == 0
    ensures q.log == [Filed(id, from, 1, 0, None), Taken(id), RoundStarted(id, 0), Handed(id, 0), Settled(id, 0, Accepted)]
    ensures q.disk == map[id := NewLetter(from, 0, 1)] && id in q.loops && q.loops[id].workers == map[0 := Saving]
  {
    q := PutOnce(id, from);
    q := Step(q, Check(id));
    q := Step(q, Launch(id));
    q := Step(q, Answer(id, 0, Accepted));
  }

  lemma {:induction false} PutOnce(id: Id, from: string) returns (q: Queue)
    ensures Reachable(q) && q.giveUpAfter == 1 && q.now == 0 && q.log == [Filed(id, from, 1, 0, None), Taken(id)]
    ensures q.disk == map[id := NewLetter(from, 0, 1)]
    ensures id in q.loops && q.loops[id] == Loop(NewLetter(from, 0, 1), Checking, map[])
  {
    q := Empty(0, 1);
    assert Run(q, []) == Some(q);
    q := Step(q, PutWrite(id, from, 1));
    q := Step(q, PutReturn(id));
  }
}
