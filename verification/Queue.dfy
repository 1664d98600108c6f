/** internal/queue/queue.go: the mail queue as a system of steps. Callers of Put, one SendLoop per item, one goroutine
  * per recipient, files, crashes and reloads interleave in any order; couriers answer anything; any file write but
  * the one that makes Put succeed may fail.
  */
module Queue {
  import opened Text
  import opened QueueLog

  datatype Status = Pending | Sent | Failed

  // An item in a file.
  datatype Letter = Letter(from: string, createdAt: int, statuses: seq<Status>)

  // A goroutine running sendOneRcpt: waiting for the courier, or about to write the item.
  datatype Worker = Delivering | Saving

  // Where a SendLoop is: at the loop condition, starting goroutines from recipient `next` on, in wg.Wait, in
  // time.Sleep, after the loop, in sendDSN with the DSN on disk, in Remove, after removing the file.
  datatype Phase = Checking | Launching(next: nat) | Waiting | Sleeping | Finishing | Noting(dsn: Id) | Removing | Dropping

  // An item in memory and its SendLoop.
  datatype Loop = Loop(item: Letter, phase: Phase, workers: map<nat, Worker>)

  datatype Queue = Queue(
    now: int,
    giveUpAfter: int,
    disk: map<Id, Letter>,
    loops: map<Id, Loop>,  // the items in memory
    puts: set<Id>,         // calls of Put that have written the file and not returned
    toLoad: set<Id>,       // files that Load has listed and not read
    log: Log)

  datatype Action =
    | Tick(to: int)
    | PutWrite(id: Id, from: string, count: nat)
    | PutReturn(id: Id)
    | LoadOne(id: Id)
    | LoadSkip(id: Id)
    | Check(id: Id)
    | Launch(id: Id)
    | Answer(id: Id, rcpt: nat, reply: Reply)
    | Save(id: Id, rcpt: nat, ok: bool)
    | Join(id: Id)
    | Wake(id: Id)
    | Finish(id: Id)
    | NoticeWrite(id: Id, dsn: Id, count: nat)
    | NoticeFail(id: Id)
    | NoticeReturn(id: Id)
    | RemoveFile(id: Id, ok: bool)
    | Drop(id: Id)
    | Crash

  predicate InPhase(q: Queue, id: Id, phase: Phase) { id in q.loops && q.loops[id].phase == phase }

  predicate Working(q: Queue, id: Id, r: nat, w: Worker) {
    id in q.loops && r in q.loops[id].workers && q.loops[id].workers[r] == w
  }

  predicate HasPending(item: Letter) { exists r :: 0 <= r < |item.statuses| && item.statuses[r] == Pending }

  predicate HasUnsent(item: Letter) { exists r :: 0 <= r < |item.statuses| && item.statuses[r] != Sent }

  predicate NeedsNotice(item: Letter) { HasUnsent(item) && item.from != "<>" }

  function NewLetter(from: string, now: int, count: nat): Letter { Letter(from, now, seq(count, _ => Pending)) }

  // Identifiers of new items have not been used before.
  predicate Enabled(q: Queue, a: Action) {
    match a
    case Tick(to) => to >= q.now
    case PutWrite(id, _, _) => OriginOf(q.log, id).None?
    case PutReturn(id) => id in q.puts && id in q.disk
    case LoadOne(id) => id in q.toLoad && id in q.disk
    case LoadSkip(id) => id in q.toLoad
    case Check(id) => InPhase(q, id, Checking)
    case Launch(id) => id in q.loops && q.loops[id].phase.Launching?
    case Answer(id, r, _) => Working(q, id, r, Delivering) && r < |q.loops[id].item.statuses|
    case Save(id, r, _) => Working(q, id, r, Saving)
    case Join(id) => InPhase(q, id, Waiting) && q.loops[id].workers == map[]
    case Wake(id) => InPhase(q, id, Sleeping)
    case Finish(id) => InPhase(q, id, Finishing) && !NeedsNotice(q.loops[id].item)
    case NoticeWrite(id, dsn, _) =>
      InPhase(q, id, Finishing) && NeedsNotice(q.loops[id].item) && OriginOf(q.log, dsn).None?
    case NoticeFail(id) => InPhase(q, id, Finishing) && NeedsNotice(q.loops[id].item)
    case NoticeReturn(id) =>
      id in q.loops && q.loops[id].phase.Noting? && q.loops[id].phase.dsn in q.disk
    case RemoveFile(id, _) => InPhase(q, id, Removing)
    case Drop(id) => InPhase(q, id, Dropping)
    case Crash => true
  }

  // Launch: one turn of the loop that starts goroutines, or its end.
  function Launched(l: Loop): Loop
    requires l.phase.Launching?
  {
    var i := l.phase.next;
    if i >= |l.item.statuses| then l.(phase := Waiting)
    else
      l.(phase := Launching(i + 1),
         workers := if l.item.statuses[i] == Pending then l.workers[i := Delivering] else l.workers)
  }

  function NewStatus(reply: Reply): Status {
    match reply
    case Accepted => Sent
    case Permanent => Failed
    case Transient => Pending
  }

  predicate Expired(q: Queue, l: Loop) { q.now - l.item.createdAt >= q.giveUpAfter }

  // The items in memory, with the acting one changed.
  function LoopsAfter(q: Queue, a: Action): map<Id, Loop>
    requires Enabled(q, a)
  {
    match a
    case PutReturn(id) =>
      var f := q.disk[id];
      q.loops[id := Loop(NewLetter(f.from, f.createdAt, |f.statuses|), Checking, map[])]
    case LoadOne(id) => q.loops[id := Loop(q.disk[id], Checking, map[])]
    case Check(id) =>
      q.loops[id := q.loops[id].(phase := if Expired(q, q.loops[id]) then Finishing else Launching(0))]
    case Launch(id) => q.loops[id := Launched(q.loops[id])]
    case Answer(id, r, reply) =>
      var l := q.loops[id];
      q.loops[id := l.(item := l.item.(statuses := l.item.statuses[r := NewStatus(reply)]),
                       workers := l.workers[r := Saving])]
    case Save(id, r, _) => q.loops[id := q.loops[id].(workers := q.loops[id].workers - {r})]
    case Join(id) =>
      q.loops[id := q.loops[id].(phase := if HasPending(q.loops[id].item) then Sleeping else Finishing)]
    case Wake(id) => q.loops[id := q.loops[id].(phase := Checking)]
    case Finish(id) => q.loops[id := q.loops[id].(phase := Removing)]
    case NoticeWrite(id, dsn, _) => q.loops[id := q.loops[id].(phase := Noting(dsn))]
    case NoticeFail(id) => q.loops[id := q.loops[id].(phase := Removing)]
    case NoticeReturn(id) =>
      var dsn := q.loops[id].phase.dsn;
      var f := q.disk[dsn];
      q.loops[id := q.loops[id].(phase := Removing)]
             [dsn := Loop(NewLetter(f.from, f.createdAt, |f.statuses|), Checking, map[])]
    case RemoveFile(id, _) => q.loops[id := q.loops[id].(phase := Dropping)]
    case Drop(id) => q.loops - {id}
    case Crash => map[]
    case _ => q.loops
  }

  function DiskAfter(q: Queue, a: Action): map<Id, Letter>
    requires Enabled(q, a)
  {
    match a
    case PutWrite(id, from, count) => q.disk[id := NewLetter(from, q.now, count)]
    case NoticeWrite(_, dsn, count) => q.disk[dsn := NewLetter("<>", q.now, count)]
    case Save(id, _, ok) => if ok then q.disk[id := q.loops[id].item] else q.disk
    case RemoveFile(id, ok) => if ok then q.disk - {id} else q.disk
    case _ => q.disk
  }

  // What the log says about an action.
  function EventOf(q: Queue, a: Action): Option<Event>
    requires Enabled(q, a)
  {
    match a
    case PutWrite(id, from, count) => Some(Filed(id, from, count, q.now, None))
    case PutReturn(id) => Some(Taken(id))
    case Check(id) => Some(if Expired(q, q.loops[id]) then GaveUp(id, q.now) else RoundStarted(id, q.now))
    case Launch(id) =>
      var l := q.loops[id];
      var i := l.phase.next;
      if i < |l.item.statuses| && l.item.statuses[i] == Pending then Some(Handed(id, i)) else None
    case Answer(id, r, reply) => Some(if reply.Transient? then Deferred(id, r) else Settled(id, r, reply))
    case Save(id, _, ok) => Some(if ok then Saved(id) else SaveFailed(id))
    case NoticeWrite(id, dsn, count) => Some(Filed(dsn, "<>", count, q.now, Some(id)))
    case NoticeFail(id) => Some(DsnRefused(id))
    case NoticeReturn(id) => Some(Taken(q.loops[id].phase.dsn))
    case RemoveFile(id, ok) => if ok then Some(Removed(id)) else None
    case Crash => Some(Crashed)
    case _ => None
  }

  function Logged(log: Log, e: Option<Event>): Log { if e.Some? then log + [e.value] else log }

  function Next(q: Queue, a: Action): Queue
    requires Enabled(q, a)
  {
    q.(now := if a.Tick? then a.to else q.now,
       disk := DiskAfter(q, a),
       loops := LoopsAfter(q, a),
       puts := if a.PutWrite? then q.puts + {a.id} else if a.PutReturn? then q.puts - {a.id}
               else if a.Crash? then {} else q.puts,
       toLoad := if a.LoadOne? || a.LoadSkip? then q.toLoad - {a.id}
                 else if a.Crash? then q.disk.Keys else q.toLoad,
       log := Logged(q.log, EventOf(q, a)))
  }

  function Run(q: Queue, actions: seq<Action>): Option<Queue> {
    if actions == [] then Some(q)
    else
      var n := |actions| - 1;
      match Run(q, actions[..n])
      case None => None
      case Some(p) => if Enabled(p, actions[n]) then Some(Next(p, actions[n])) else None
  }

  // A queue over an empty directory.
  function Empty(now: int, giveUpAfter: int): Queue { Queue(now, giveUpAfter, map[], map[], {}, {}, []) }
}
