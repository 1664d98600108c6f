/** Every run of the queue leaves a proper log, and files and memory are what the log says. */
module QueueSafety {
  import opened Text
  import opened QueueLog
  import opened Queue

  // ---------------------------------------------------------------- the invariant

  predicate Born(log: Log, id: Id, item: Letter) {
    && OriginOf(log, id).Some?
    && var o := OriginOf(log, id).value;
       o.from == item.from && o.count == |item.statuses| && o.at == item.createdAt
  }

  // The status of a recipient is the answer that is kept.
  predicate Shows(status: Status, answer: Option<Reply>) {
    match status
    case Pending => answer == None
    case Sent => answer == Some(Accepted)
    case Failed => answer == Some(Permanent)
  }

  predicate InMemory(log: Log, id: Id, item: Letter) {
    Born(log, id, item) && forall r :: 0 <= r < |item.statuses| ==> Shows(item.statuses[r], AnswerOf(log, id, r))
  }

  predicate InFile(log: Log, id: Id, item: Letter) {
    Born(log, id, item) && forall r :: 0 <= r < |item.statuses| ==> Shows(item.statuses[r], FileAnswer(log, id, r))
  }

  // A goroutine belongs to the current round, and its recipient is pending until the courier answers.
  predicate WorkerOk(l: Loop, r: nat)
    requires r in l.workers
  {
    && r < |l.item.statuses|
    && ((l.phase.Launching? && r < l.phase.next) || l.phase.Waiting?)
    && (l.workers[r].Delivering? ==> l.item.statuses[r] == Pending)
  }

  predicate Settling(l: Loop, r: nat) { r in l.workers && l.workers[r].Saving? }

  // If the last write succeeded, the file has what memory has, but for goroutines about to write.
  predicate Agrees(log: Log, id: Id, l: Loop) {
    Clean(log, id) ==>
    forall r :: 0 <= r < |l.item.statuses| && !Settling(l, r) ==> Shows(l.item.statuses[r], FileAnswer(log, id, r))
  }

  ghost predicate PhaseOk(log: Log, id: Id, l: Loop) {
    match l.phase
    case Launching(next) => next <= |l.item.statuses|
    case Finishing => Over(log, id)
    case Noting(dsn) => Over(log, id) && NoticeOf(log, dsn, id)
    case Removing => Over(log, id) && Accounted(log, id)
    case _ => true
  }

  ghost predicate LoopOk(log: Log, id: Id, l: Loop) {
    && InMemory(log, id, l.item)
    && (forall r :: r in l.workers ==> WorkerOk(l, r))
    && Agrees(log, id, l)
    && PhaseOk(log, id, l)
    && (l.phase.Dropping? || Removed(id) !in log)
  }

  predicate DiskOk(log: Log, disk: map<Id, Letter>, id: Id) {
    (id in disk <==> OnDisk(log, id)) && (id in disk ==> InFile(log, id, disk[id]))
  }

  predicate Untouched(log: Log, id: Id, count: nat) {
    forall r :: 0 <= r < count ==> AnswerOf(log, id, r) == FileAnswer(log, id, r) == None
  }

  // A file whose Put has not returned, or that Load has not read, has no loop.
  predicate Unstarted(q: Queue, id: Id) { id in q.disk && id !in q.loops }

  predicate JustFiled(q: Queue, id: Id) {
    Unstarted(q, id) && id !in q.toLoad && Untouched(q.log, id, |q.disk[id].statuses|)
  }

  predicate LoadOk(q: Queue, id: Id) {
    Unstarted(q, id) && forall r :: 0 <= r < |q.disk[id].statuses| ==> AnswerOf(q.log, id, r) == FileAnswer(q.log, id, r)
  }

  ghost predicate Inv(q: Queue) {
    && Proper(q.log, q.giveUpAfter)
    && (forall id :: id in q.loops ==> LoopOk(q.log, id, q.loops[id]))
    && (forall id :: DiskOk(q.log, q.disk, id))
    && (forall id, r :: FlightOk(q, id, r))
    && (forall id :: id in q.loops ==> RoundOk(q.log, id, q.loops[id]))
    && (forall id :: id in q.puts ==> JustFiled(q, id))
    && (forall id :: id in q.toLoad ==> LoadOk(q, id))
    && (forall id :: id in q.loops && q.loops[id].phase.Noting? ==> NoticeOk(q, q.loops[id].phase.dsn))
  }

  // The loop of a round has passed this recipient, or is over.
  predicate Passed(phase: Phase, r: nat) { (phase.Launching? && r < phase.next) || phase.Waiting? || phase.Sleeping? }

  // Whoever is pending and was passed was handed over in this round.
  predicate RoundOk(log: Log, id: Id, l: Loop) {
    forall r :: 0 <= r < |l.item.statuses| && PassedPending(l, r) ==> Tried(log, id, r)
  }

  predicate PassedPending(l: Loop, r: nat) {
    r < |l.item.statuses| && Passed(l.phase, r) && l.item.statuses[r] == Pending
  }

  // A courier that has not answered has a goroutine that waits for it, and the other way round.
  predicate FlightOk(q: Queue, id: Id, r: int) { r >= 0 ==> (InFlight(q.log, id, r) <==> Working(q, id, r, Delivering)) }

  // A DSN that sendDSN has filed is no one else's yet.
  predicate NoticeOk(q: Queue, dsn: Id) { JustFiled(q, dsn) && dsn !in q.puts }

  // ---------------------------------------------------------------- events about other items

  predicate Quiet(e: Event, id: Id) { !e.Crashed? && e.id != id }

  lemma {:induction false} QuietStatus(log: Log, e: Event, id: Id)
    requires Quiet(e, id)
    ensures OriginOf(log + [e], id) == OriginOf(log, id)
    ensures forall r :: 0 <= r ==> AnswerOf(log + [e], id, r) == AnswerOf(log, id, r)
    ensures forall r :: 0 <= r ==> FileAnswer(log + [e], id, r) == FileAnswer(log, id, r)
    ensures Clean(log + [e], id) == Clean(log, id)
  {
    Snoc(log, e, id, 0);
    forall r | 0 <= r
      ensures AnswerOf(log + [e], id, r) == AnswerOf(log, id, r) && FileAnswer(log + [e], id, r) == FileAnswer(log, id, r)
    {
      Snoc(log, e, id, r);
    }
  }

  lemma {:induction false} NoticeKept(log: Log, e: Event, dsn: Id, id: Id)
    requires NoticeOf(log, dsn, id) && !(e.Filed? && e.id == dsn)
    ensures NoticeOf(log + [e], dsn, id)
  {
    Snoc(log, e, dsn, 0);
  }

  // Unless it files an identifier again or takes statuses back, an event keeps what was accounted for.
  lemma {:induction false} AccountedKept(log: Log, limit: int, e: Event, id: Id)
    requires Accounted(log, id) && Allowed(log, limit, e) && !e.Crashed? && !(e.Settled? && e.id == id)
    ensures Accounted(log + [e], id)
  {
    Snoc(log, e, id, 0);
    var o := OriginOf(log, id).value;
    if AllAccepted(log, id, o.count) {
      forall r | 0 <= r < o.count ensures AnswerOf(log + [e], id, r) == Some(Accepted) { Snoc(log, e, id, r); }
    } else if exists dsn :: NoticeOf(log, dsn, id) {
      var dsn :| NoticeOf(log, dsn, id);
      NoticeKept(log, e, dsn, id);
    }
  }

  lemma {:induction false} OverKept(log: Log, limit: int, e: Event, id: Id)
    requires Over(log, id) && Allowed(log, limit, e) && !e.Crashed?
    ensures Over(log + [e], id)
  {
    Snoc(log, e, id, 0);
    var o := OriginOf(log, id).value;
    if exists at :: GaveUp(id, at) in log {
      var at :| GaveUp(id, at) in log;
      assert GaveUp(id, at) in log + [e];
    } else {
      forall r | 0 <= r < o.count ensures AnswerOf(log + [e], id, r) != None { Snoc(log, e, id, r); }
    }
  }

  lemma {:induction false} PhaseKept(log: Log, limit: int, e: Event, id: Id, l: Loop)
    requires PhaseOk(log, id, l) && Allowed(log, limit, e) && !e.Crashed? && !(e.Settled? && e.id == id)
    ensures PhaseOk(log + [e], id, l)
  {
    if l.phase.Finishing? || l.phase.Noting? || l.phase.Removing? {
      OverKept(log, limit, e, id);
    }
    if l.phase.Noting? {
      NoticeKept(log, e, l.phase.dsn, id);
    }
    if l.phase.Removing? {
      AccountedKept(log, limit, e, id);
    }
  }

  // An event about another item keeps a loop as it should be.
  lemma {:induction false} OtherLoop(log: Log, limit: int, e: Event, id: Id, l: Loop)
    requires LoopOk(log, id, l) && Allowed(log, limit, e) && Quiet(e, id)
    ensures LoopOk(log + [e], id, l)
  {
    QuietStatus(log, e, id);
    PhaseKept(log, limit, e, id, l);
  }

  // An event about this item that sets no status and writes nothing.
  lemma {:induction false} OwnLoop(log: Log, limit: int, e: Event, id: Id, l: Loop)
    requires LoopOk(log, id, l) && Allowed(log, limit, e) && !e.Crashed?
    requires !e.Settled? && !e.Saved? && !e.SaveFailed? && !e.Filed? && !e.Removed?
    ensures LoopOk(log + [e], id, l)
  {
    forall r | 0 <= r < |l.item.statuses|
      ensures AnswerOf(log + [e], id, r) == AnswerOf(log, id, r) && FileAnswer(log + [e], id, r) == FileAnswer(log, id, r)
    {
      Snoc(log, e, id, r);
    }
    Snoc(log, e, id, 0);
    PhaseKept(log, limit, e, id, l);
  }

  // ---------------------------------------------------------------- every step is allowed

  lemma {:induction false} LoopOnDisk(q: Queue, id: Id)
    requires Inv(q) && id in q.loops && !q.loops[id].phase.Dropping?
    ensures OnDisk(q.log, id) && Born(q.log, id, q.loops[id].item)
  {
    assert LoopOk(q.log, id, q.loops[id]);
  }

  lemma {:induction false} BouncesHere(q: Queue, id: Id)
    requires Inv(q) && InPhase(q, id, Finishing) && NeedsNotice(q.loops[id].item)
    ensures OnDisk(q.log, id) && Bounces(q.log, id)
  {
    LoopOnDisk(q, id);
    assert LoopOk(q.log, id, q.loops[id]);
    var item := q.loops[id].item;
    var r :| 0 <= r < |item.statuses| && item.statuses[r] != Sent;
    assert AnswerOf(q.log, id, r) != Some(Accepted);
  }

  // No recipient is handed to a courier while another has it.
  lemma {:induction false} LaunchAllowed(q: Queue, id: Id)
    requires Inv(q) && Enabled(q, Launch(id)) && EventOf(q, Launch(id)).Some?
    ensures Allowed(q.log, q.giveUpAfter, EventOf(q, Launch(id)).value)
  {
    LoopOnDisk(q, id);
    assert LoopOk(q.log, id, q.loops[id]);
    EarlierWorkers(q.log, id, q.loops[id]);
    assert FlightOk(q, id, q.loops[id].phase.next);
  }

  lemma {:induction false} AllowedStep(q: Queue, a: Action)
    requires Inv(q) && Enabled(q, a) && EventOf(q, a).Some?
    ensures Allowed(q.log, q.giveUpAfter, EventOf(q, a).value)
  {
    match a
    case PutReturn(id) => assert JustFiled(q, id) && DiskOk(q.log, q.disk, id);
    case Check(id) => LoopOnDisk(q, id);
    case Launch(id) => LaunchAllowed(q, id);
    case Answer(id, r, _) =>
      assert LoopOk(q.log, id, q.loops[id]) && WorkerOk(q.loops[id], r) && FlightOk(q, id, r);
      LoopOnDisk(q, id);
    case Save(id, r, _) =>
      assert LoopOk(q.log, id, q.loops[id]) && WorkerOk(q.loops[id], r);
      LoopOnDisk(q, id);
    case NoticeWrite(id, _, _) => BouncesHere(q, id);
    case NoticeFail(id) => BouncesHere(q, id);
    case NoticeReturn(id) =>
      assert NoticeOk(q, q.loops[id].phase.dsn) && DiskOk(q.log, q.disk, q.loops[id].phase.dsn);
    case RemoveFile(id, _) => LoopOnDisk(q, id); assert LoopOk(q.log, id, q.loops[id]);
    case _ =>
  }

  // ---------------------------------------------------------------- the acting loop

  // A loop that has just been started, from a file whose statuses are those in memory.
  lemma {:induction false} NewLoop(log: Log, id: Id, item: Letter)
    requires InMemory(log, id, item) && InFile(log, id, item) && Removed(id) !in log
    ensures LoopOk(log, id, Loop(item, Checking, map[]))
  {}

  lemma {:induction false} FreshLoop(q: Queue, id: Id, e: Event)
    requires Inv(q) && JustFiled(q, id) && e == Taken(id)
    ensures var f := q.disk[id];
      LoopOk(q.log + [e], id, Loop(NewLetter(f.from, f.createdAt, |f.statuses|), Checking, map[]))
  {
    assert DiskOk(q.log, q.disk, id);
    var f := q.disk[id];
    var item := NewLetter(f.from, f.createdAt, |f.statuses|);
    Snoc(q.log, e, id, 0);
    forall r | 0 <= r < |f.statuses|
      ensures AnswerOf(q.log + [e], id, r) == FileAnswer(q.log + [e], id, r) == None
    {
      Snoc(q.log, e, id, r);
    }
    NewLoop(q.log + [e], id, item);
  }

  lemma {:induction false} LoadedLoop(q: Queue, id: Id)
    requires Inv(q) && id in q.toLoad
    ensures LoopOk(q.log, id, Loop(q.disk[id], Checking, map[]))
  {
    assert LoadOk(q, id) && DiskOk(q.log, q.disk, id);
    NewLoop(q.log, id, q.disk[id]);
  }

  lemma {:induction false} NoWorkers(log: Log, id: Id, l: Loop)
    requires LoopOk(log, id, l) && !l.phase.Launching? && !l.phase.Waiting?
    ensures l.workers == map[]
  {
    if r :| r in l.workers {
      assert false;
    }
  }

  lemma {:induction false} EarlierWorkers(log: Log, id: Id, l: Loop)
    requires LoopOk(log, id, l) && l.phase.Launching?
    ensures forall r :: r in l.workers ==> r < l.phase.next
  {
    forall r | r in l.workers ensures r < l.phase.next { assert WorkerOk(l, r); }
  }

  lemma {:induction false} CheckedLoop(q: Queue, id: Id)
    requires Inv(q) && Enabled(q, Check(id))
    ensures LoopOk(Next(q, Check(id)).log, id, Next(q, Check(id)).loops[id])
  {
    var l := q.loops[id];
    assert LoopOk(q.log, id, l);
    NoWorkers(q.log, id, l);
    AllowedStep(q, Check(id));
    OwnLoop(q.log, q.giveUpAfter, EventOf(q, Check(id)).value, id, l);
    if Expired(q, l) { assert GaveUp(id, q.now) in q.log + [GaveUp(id, q.now)]; }
  }

  lemma {:induction false} LaunchedLoop(q: Queue, id: Id)
    requires Inv(q) && Enabled(q, Launch(id))
    ensures LoopOk(Next(q, Launch(id)).log, id, Next(q, Launch(id)).loops[id])
  {
    var l := q.loops[id];
    assert LoopOk(q.log, id, l);
    EarlierWorkers(q.log, id, l);
    var m := Launched(l);
    var e := EventOf(q, Launch(id));
    if e.Some? {
      AllowedStep(q, Launch(id));
      OwnLoop(q.log, q.giveUpAfter, e.value, id, l);
    }
    var log := Logged(q.log, e);
    forall r | r in m.workers ensures WorkerOk(m, r) {
      if r in l.workers { assert WorkerOk(l, r); }
    }
  }

  lemma {:induction false} JoinedLoop(q: Queue, id: Id)
    requires Inv(q) && Enabled(q, Join(id))
    ensures LoopOk(q.log, id, Next(q, Join(id)).loops[id])
  {
    var l := q.loops[id];
    assert LoopOk(q.log, id, l);
    if !HasPending(l.item) {
      assert forall r :: 0 <= r < |l.item.statuses| ==> AnswerOf(q.log, id, r) != None;
    }
  }

  lemma {:induction false} AnsweredLoop(q: Queue, id: Id, r: nat, reply: Reply)
    requires Inv(q) && Enabled(q, Answer(id, r, reply))
    ensures LoopOk(Next(q, Answer(id, r, reply)).log, id, Next(q, Answer(id, r, reply)).loops[id])
  {
    var a := Answer(id, r, reply);
    var l, m := q.loops[id], Next(q, a).loops[id];
    assert LoopOk(q.log, id, l) && WorkerOk(l, r);
    var log := Next(q, a).log;
    forall i | 0 <= i < |l.item.statuses|
      ensures Shows(m.item.statuses[i], AnswerOf(log, id, i)) && FileAnswer(log, id, i) == FileAnswer(q.log, id, i)
    {
      Snoc(q.log, EventOf(q, a).value, id, i);
    }
    Snoc(q.log, EventOf(q, a).value, id, r);
    forall i | i in m.workers ensures WorkerOk(m, i) { assert WorkerOk(l, i); }
  }

  lemma {:induction false} SavedLoop(q: Queue, id: Id, r: nat, ok: bool)
    requires Inv(q) && Enabled(q, Save(id, r, ok))
    ensures LoopOk(Next(q, Save(id, r, ok)).log, id, Next(q, Save(id, r, ok)).loops[id])
  {
    var a := Save(id, r, ok);
    var l, m, log := q.loops[id], Next(q, a).loops[id], Next(q, a).log;
    var e := if ok then Saved(id) else SaveFailed(id);
    assert LoopOk(q.log, id, l) && WorkerOk(l, r);
    forall i | 0 <= i < |l.item.statuses|
      ensures Shows(l.item.statuses[i], AnswerOf(log, id, i))
      ensures FileAnswer(log, id, i) == if ok then AnswerOf(q.log, id, i) else FileAnswer(q.log, id, i)
    {
      Snoc(q.log, e, id, i);
    }
    Snoc(q.log, e, id, r);
    forall i | i in m.workers ensures WorkerOk(m, i) { assert WorkerOk(l, i); }
  }

  lemma {:induction false} FinishedLoop(q: Queue, id: Id)
    requires Inv(q) && Enabled(q, Finish(id))
    ensures LoopOk(q.log, id, Next(q, Finish(id)).loops[id])
  {
    var l := q.loops[id];
    assert LoopOk(q.log, id, l);
    NoWorkers(q.log, id, l);
    if !HasUnsent(l.item) { assert AllAccepted(q.log, id, |l.item.statuses|); }
  }

  lemma {:induction false} NotedLoop(q: Queue, id: Id, dsn: Id, count: nat)
    requires Inv(q) && Enabled(q, NoticeWrite(id, dsn, count))
    ensures LoopOk(Next(q, NoticeWrite(id, dsn, count)).log, id, Next(q, NoticeWrite(id, dsn, count)).loops[id])
  {
    var a := NoticeWrite(id, dsn, count);
    var l, e := q.loops[id], EventOf(q, a).value;
    assert LoopOk(q.log, id, l);
    AllowedStep(q, a);
    OtherLoop(q.log, q.giveUpAfter, e, id, l);
    Snoc(q.log, e, dsn, 0);
    NoWorkers(q.log, id, l);
  }

  lemma {:induction false} RefusedLoop(q: Queue, id: Id)
    requires Inv(q) && Enabled(q, NoticeFail(id))
    ensures LoopOk(Next(q, NoticeFail(id)).log, id, Next(q, NoticeFail(id)).loops[id])
  {
    var l, e := q.loops[id], DsnRefused(id);
    assert LoopOk(q.log, id, l);
    AllowedStep(q, NoticeFail(id));
    OwnLoop(q.log, q.giveUpAfter, e, id, l);
    assert e in q.log + [e];
    NoWorkers(q.log, id, l);
  }

  lemma {:induction false} ReturnedLoop(q: Queue, id: Id)
    requires Inv(q) && Enabled(q, NoticeReturn(id))
    ensures LoopOk(Next(q, NoticeReturn(id)).log, id, Next(q, NoticeReturn(id)).loops[id])
  {
    var l, dsn := q.loops[id], q.loops[id].phase.dsn;
    var e := Taken(dsn);
    assert LoopOk(q.log, id, l) && NoticeOk(q, dsn);
    AllowedStep(q, NoticeReturn(id));
    OtherLoop(q.log, q.giveUpAfter, e, id, l);
    assert NoticeOf(q.log + [e], dsn, id);
    NoWorkers(q.log, id, l);
  }

  lemma {:induction false} RemovedLoop(q: Queue, id: Id, ok: bool)
    requires Inv(q) && Enabled(q, RemoveFile(id, ok))
    ensures LoopOk(Next(q, RemoveFile(id, ok)).log, id, Next(q, RemoveFile(id, ok)).loops[id])
  {
    var l, log := q.loops[id], Next(q, RemoveFile(id, ok)).log;
    assert LoopOk(q.log, id, l);
    NoWorkers(q.log, id, l);
    forall i | 0 <= i < |l.item.statuses|
      ensures AnswerOf(log, id, i) == AnswerOf(q.log, id, i) && FileAnswer(log, id, i) == FileAnswer(q.log, id, i)
    {
      if ok { Snoc(q.log, Removed(id), id, i); }
    }
    if ok { Snoc(q.log, Removed(id), id, 0); }
  }

  // ---------------------------------------------------------------- every step keeps the invariant

  // The loop that acts, if one does; Put and Load start one.
  function Actor(a: Action): Option<Id> {
    match a
    case Tick(_) => None
    case PutWrite(_, _, _) => None
    case LoadSkip(_) => None
    case Drop(_) => None
    case Crash => None
    case _ => Some(a.id)
  }

  lemma {:induction false} ActingLoop(q: Queue, a: Action)
    requires Inv(q) && Enabled(q, a) && Actor(a).Some?
    ensures a.id in Next(q, a).loops && LoopOk(Next(q, a).log, a.id, Next(q, a).loops[a.id])
  {
    if a.PutReturn? {
      StartedLoop(q, a.id);
    } else if a.LoadOne? {
      LoadedLoop(q, a.id);
    } else if Closing(a) {
      ClosingLoop(q, a);
    } else {
      RoundLoop(q, a);
    }
  }

  lemma {:induction false} StartedLoop(q: Queue, id: Id)
    requires Inv(q) && Enabled(q, PutReturn(id))
    ensures LoopOk(Next(q, PutReturn(id)).log, id, Next(q, PutReturn(id)).loops[id])
  {
    assert JustFiled(q, id);
    FreshLoop(q, id, Taken(id));
  }

  lemma {:induction false} RoundLoop(q: Queue, a: Action)
    requires Inv(q) && Enabled(q, a)
    requires a.Check? || a.Launch? || a.Answer? || a.Save? || a.Join? || a.Wake?
    ensures a.id in Next(q, a).loops && LoopOk(Next(q, a).log, a.id, Next(q, a).loops[a.id])
  {
    if a.Check? {
      CheckedLoop(q, a.id);
    } else if a.Launch? {
      LaunchedLoop(q, a.id);
    } else if a.Answer? {
      AnsweredLoop(q, a.id, a.rcpt, a.reply);
    } else if a.Save? {
      SavedLoop(q, a.id, a.rcpt, a.ok);
    } else if a.Join? {
      JoinedLoop(q, a.id);
    } else {
      WokenLoop(q, a.id);
    }
  }

  lemma {:induction false} WokenLoop(q: Queue, id: Id)
    requires Inv(q) && Enabled(q, Wake(id))
    ensures LoopOk(q.log, id, Next(q, Wake(id)).loops[id])
  {
    assert LoopOk(q.log, id, q.loops[id]);
    NoWorkers(q.log, id, q.loops[id]);
  }

  // After the loop: the DSN and the removal.
  predicate Closing(a: Action) { a.Finish? || a.NoticeWrite? || a.NoticeFail? || a.NoticeReturn? || a.RemoveFile? }

  lemma {:induction false} ClosingLoop(q: Queue, a: Action)
    requires Inv(q) && Enabled(q, a) && Closing(a)
    ensures a.id in Next(q, a).loops && LoopOk(Next(q, a).log, a.id, Next(q, a).loops[a.id])
  {
    if a.Finish? {
      FinishedLoop(q, a.id);
    } else if a.NoticeWrite? {
      NotedLoop(q, a.id, a.dsn, a.count);
    } else if a.NoticeFail? {
      RefusedLoop(q, a.id);
    } else if a.NoticeReturn? {
      ReturnedLoop(q, a.id);
    } else {
      RemovedLoop(q, a.id, a.ok);
    }
  }

  lemma {:induction false} LoopsKept(q: Queue, a: Action, id: Id)
    requires Inv(q) && Enabled(q, a) && id in Next(q, a).loops
    ensures LoopOk(Next(q, a).log, id, Next(q, a).loops[id])
  {
    if Actor(a) == Some(id) {
      ActingLoop(q, a);
    } else if a.NoticeReturn? && id == q.loops[a.id].phase.dsn {
      assert NoticeOk(q, id);
      FreshLoop(q, id, Taken(id));
    } else {
      assert LoopOk(q.log, id, q.loops[id]);
      if EventOf(q, a).Some? {
        AllowedStep(q, a);
        OtherLoop(q.log, q.giveUpAfter, EventOf(q, a).value, id, q.loops[id]);
      }
    }
  }

  // ---------------------------------------------------------------- files

  lemma {:induction false} FiledLetter(log: Log, limit: int, e: Event, now: int)
    requires Proper(log, limit) && e.Filed? && e.at == now && OriginOf(log, e.id).None?
    ensures InFile(log + [e], e.id, NewLetter(e.from, now, e.count)) && Untouched(log + [e], e.id, e.count)
  {
    Snoc(log, e, e.id, 0);
    forall r | 0 <= r < e.count
      ensures AnswerOf(log + [e], e.id, r) == FileAnswer(log + [e], e.id, r) == None
    {
      NotFiledYet(log, limit, e.id, r);
      Snoc(log, e, e.id, r);
    }
  }

  // An identifier that was never filed was never removed.
  lemma {:induction false} NotRemovedYet(log: Log, limit: int, id: Id)
    requires Proper(log, limit) && OriginOf(log, id).None?
    ensures Removed(id) !in log
  {
    if log != [] {
      NotRemovedYet(log[..|log| - 1], limit, id);
    }
  }

  lemma {:induction false} SavedFile(q: Queue, id: Id, r: nat)
    requires Inv(q) && Enabled(q, Save(id, r, true))
    ensures InFile(q.log + [Saved(id)], id, q.loops[id].item)
  {
    assert LoopOk(q.log, id, q.loops[id]);
    Snoc(q.log, Saved(id), id, 0);
    forall i | 0 <= i < |q.loops[id].item.statuses|
      ensures Shows(q.loops[id].item.statuses[i], FileAnswer(q.log + [Saved(id)], id, i))
    {
      Snoc(q.log, Saved(id), id, i);
    }
  }

  lemma {:induction false} UnsavedFile(log: Log, e: Event, id: Id, item: Letter)
    requires InFile(log, id, item) && !(e.Saved? && e.id == id) && !(e.Filed? && e.id == id)
    ensures InFile(log + [e], id, item)
  {
    Snoc(log, e, id, 0);
    forall i | 0 <= i < |item.statuses| ensures Shows(item.statuses[i], FileAnswer(log + [e], id, i)) {
      Snoc(log, e, id, i);
    }
  }

  lemma {:induction false} FilesKept(q: Queue, a: Action, id: Id)
    requires Inv(q) && Enabled(q, a)
    ensures DiskOk(Next(q, a).log, Next(q, a).disk, id)
  {
    assert DiskOk(q.log, q.disk, id);
    if EventOf(q, a).Some? {
      var e := EventOf(q, a).value;
      if e.Filed? && e.id == id {
        NewFile(q, a);
      } else if e == Saved(id) {
        WrittenFile(q, a.id, a.rcpt);
      } else {
        OtherFile(q, a, id);
      }
    }
  }

  lemma {:induction false} NewFile(q: Queue, a: Action)
    requires Inv(q) && Enabled(q, a) && EventOf(q, a).Some? && EventOf(q, a).value.Filed?
    ensures DiskOk(Next(q, a).log, Next(q, a).disk, EventOf(q, a).value.id)
  {
    var e := EventOf(q, a).value;
    AllowedStep(q, a);
    FiledLetter(q.log, q.giveUpAfter, e, q.now);
    NotRemovedYet(q.log, q.giveUpAfter, e.id);
  }

  lemma {:induction false} WrittenFile(q: Queue, id: Id, r: nat)
    requires Inv(q) && Enabled(q, Save(id, r, true))
    ensures DiskOk(Next(q, Save(id, r, true)).log, Next(q, Save(id, r, true)).disk, id)
  {
    AllowedStep(q, Save(id, r, true));
    Snoc(q.log, Saved(id), id, 0);
    SavedFile(q, id, r);
  }

  lemma {:induction false} OtherFile(q: Queue, a: Action, id: Id)
    requires Inv(q) && Enabled(q, a) && EventOf(q, a).Some?
    requires var e := EventOf(q, a).value; e != Saved(id) && !(e.Filed? && e.id == id)
    ensures DiskOk(Next(q, a).log, Next(q, a).disk, id)
  {
    DiskFrame(q, a, id);
    OtherEvent(q.log, EventOf(q, a).value, id, q.disk, DiskAfter(q, a));
  }

  // What an action does to a file that it does not write.
  lemma {:induction false} DiskFrame(q: Queue, a: Action, id: Id)
    requires Enabled(q, a) && EventOf(q, a).Some?
    requires var e := EventOf(q, a).value; e != Saved(id) && !(e.Filed? && e.id == id)
    ensures var disk := DiskAfter(q, a);
      if EventOf(q, a).value == Removed(id) then id !in disk
      else (id in disk <==> id in q.disk) && (id in disk ==> disk[id] == q.disk[id])
  {}

  lemma {:induction false} OtherEvent(log: Log, e: Event, id: Id, disk: map<Id, Letter>, after: map<Id, Letter>)
    requires DiskOk(log, disk, id) && e != Saved(id) && !(e.Filed? && e.id == id)
    requires if e == Removed(id) then id !in after
             else (id in after <==> id in disk) && (id in after ==> after[id] == disk[id])
    ensures DiskOk(log + [e], after, id)
  {
    Snoc(log, e, id, 0);
    if id in disk { UnsavedFile(log, e, id, disk[id]); }
  }

  // ---------------------------------------------------------------- items not started yet

  lemma {:induction false} UntouchedKept(log: Log, e: Event, id: Id, count: nat)
    requires Untouched(log, id, count) && !(e.Settled? && e.id == id)
    ensures Untouched(log + [e], id, count)
  {
    forall r | 0 <= r < count ensures AnswerOf(log + [e], id, r) == FileAnswer(log + [e], id, r) == None {
      Snoc(log, e, id, r);
    }
  }

  // A step of another item leaves a file that has no loop alone.
  lemma {:induction false} JustFiledKept(q: Queue, a: Action, id: Id)
    requires Inv(q) && Enabled(q, a) && JustFiled(q, id) && !a.Crash?
    requires id in Next(q, a).disk && id !in Next(q, a).loops
    ensures JustFiled(Next(q, a), id)
  {
    if EventOf(q, a).Some? {
      AllowedStep(q, a);
      assert DiskOk(q.log, q.disk, id);
      UntouchedKept(q.log, EventOf(q, a).value, id, |q.disk[id].statuses|);
    }
    FilesKept(q, a, id);
    assert DiskOk(q.log, q.disk, id);
    SameCount(q, a, id);
  }

  lemma {:induction false} SameCount(q: Queue, a: Action, id: Id)
    requires Inv(q) && Enabled(q, a) && id in q.disk && id in Next(q, a).disk
    ensures |Next(q, a).disk[id].statuses| == |q.disk[id].statuses|
  {
    FilesKept(q, a, id);
    assert DiskOk(q.log, q.disk, id);
    if EventOf(q, a).Some? {
      AllowedStep(q, a);
      Snoc(q.log, EventOf(q, a).value, id, 0);
    }
  }

  lemma {:induction false} PutsKept(q: Queue, a: Action, id: Id)
    requires Inv(q) && Enabled(q, a) && id in Next(q, a).puts
    ensures JustFiled(Next(q, a), id)
  {
    assert DiskOk(q.log, q.disk, id);
    if id in q.puts {
      assert JustFiled(q, id);
      assert a.NoticeReturn? ==> NoticeOk(q, q.loops[a.id].phase.dsn);
      JustFiledKept(q, a, id);
    } else {
      assert id in q.loops ==> LoopOk(q.log, id, q.loops[id]);
      FiledLetter(q.log, q.giveUpAfter, EventOf(q, a).value, q.now);
      assert id in q.toLoad ==> LoadOk(q, id);
    }
  }

  lemma {:induction false} LoadsKept(q: Queue, a: Action, id: Id)
    requires Inv(q) && Enabled(q, a) && id in Next(q, a).toLoad
    ensures LoadOk(Next(q, a), id)
  {
    var p := Next(q, a);
    StillUnstarted(q, a, id);
    forall r | 0 <= r < |p.disk[id].statuses| ensures AnswerOf(p.log, id, r) == FileAnswer(p.log, id, r) {
      if EventOf(q, a).Some? { Snoc(q.log, EventOf(q, a).value, id, r); }
    }
  }

  // A file that is still to be loaded stays as it is, and nothing is said about its recipients.
  lemma {:induction false} StillUnstarted(q: Queue, a: Action, id: Id)
    requires Inv(q) && Enabled(q, a) && id in Next(q, a).toLoad
    ensures Unstarted(Next(q, a), id)
    ensures !a.Crash? ==> LoadOk(q, id) && |Next(q, a).disk[id].statuses| == |q.disk[id].statuses|
    ensures EventOf(q, a).Some? && EventOf(q, a).value.Settled? ==> EventOf(q, a).value.id != id
  {
    if a.Crash? {
      assert DiskOk(q.log, q.disk, id);
    } else {
      assert LoadOk(q, id);
      assert a.NoticeReturn? ==> NoticeOk(q, q.loops[a.id].phase.dsn);
      assert a.PutReturn? ==> JustFiled(q, a.id);
      UnstartedFrame(q, a, id);
      SameCount(q, a, id);
    }
  }

  // A step that starts no loop for a file without one leaves the file alone.
  lemma {:induction false} UnstartedFrame(q: Queue, a: Action, id: Id)
    requires Enabled(q, a) && Unstarted(q, id) && !a.Crash?
    requires a.PutReturn? || a.LoadOne? ==> a.id != id
    requires a.NoticeReturn? ==> q.loops[a.id].phase.dsn != id
    ensures Unstarted(Next(q, a), id)
    ensures EventOf(q, a).Some? && EventOf(q, a).value.Settled? ==> EventOf(q, a).value.id != id
  {}

  lemma {:induction false} NoticesKept(q: Queue, a: Action, id: Id)
    requires Inv(q) && Enabled(q, a) && id in Next(q, a).loops && Next(q, a).loops[id].phase.Noting?
    ensures NoticeOk(Next(q, a), Next(q, a).loops[id].phase.dsn)
  {
    if a.NoticeWrite? && a.id == id {
      NewNotice(q, id, a.dsn, a.count);
    } else {
      NotingFrame(q, a, id);
      OldNotice(q, a, id, Next(q, a).loops[id].phase.dsn);
    }
  }

  // Only filing a DSN brings a loop to the phase in which it waits for it.
  lemma {:induction false} NotingFrame(q: Queue, a: Action, id: Id)
    requires Enabled(q, a) && id in LoopsAfter(q, a) && LoopsAfter(q, a)[id].phase.Noting? && !(a.NoticeWrite? && a.id == id)
    ensures InPhase(q, id, LoopsAfter(q, a)[id].phase)
  {}

  lemma {:induction false} NewNotice(q: Queue, id: Id, dsn: Id, count: nat)
    requires Inv(q) && Enabled(q, NoticeWrite(id, dsn, count))
    ensures NoticeOk(Next(q, NoticeWrite(id, dsn, count)), dsn)
  {
    assert DiskOk(q.log, q.disk, dsn);
    assert dsn in q.loops ==> LoopOk(q.log, dsn, q.loops[dsn]);
    FiledLetter(q.log, q.giveUpAfter, EventOf(q, NoticeWrite(id, dsn, count)).value, q.now);
    assert dsn in q.toLoad ==> LoadOk(q, dsn);
    assert dsn in q.puts ==> JustFiled(q, dsn);
  }

  lemma {:induction false} OldNotice(q: Queue, a: Action, id: Id, dsn: Id)
    requires Inv(q) && Enabled(q, a) && InPhase(Next(q, a), id, Noting(dsn)) && InPhase(q, id, Noting(dsn))
    ensures NoticeOk(Next(q, a), dsn)
  {
    assert DiskOk(q.log, q.disk, dsn);
    assert NoticeOk(q, dsn);
    assert LoopOk(q.log, id, q.loops[id]);
    if a.NoticeReturn? { assert LoopOk(q.log, a.id, q.loops[a.id]); }
    JustFiledKept(q, a, dsn);
  }

  // ---------------------------------------------------------------- couriers

  // A loop is new when it is started, and has no goroutines when it ends.
  predicate StartsAndEndsIdle(q: Queue, a: Action)
    requires Enabled(q, a)
  {
    && (a.PutReturn? || a.LoadOne? ==> a.id !in q.loops)
    && (a.NoticeReturn? ==> q.loops[a.id].phase.dsn !in q.loops)
    && (a.Drop? ==> q.loops[a.id].workers == map[])
  }

  lemma {:induction false} IdleAtTheEnds(q: Queue, a: Action)
    requires Inv(q) && Enabled(q, a)
    ensures StartsAndEndsIdle(q, a)
  {
    if a.PutReturn? {
      assert JustFiled(q, a.id);
    } else if a.LoadOne? {
      assert LoadOk(q, a.id);
    } else if a.NoticeReturn? {
      assert NoticeOk(q, q.loops[a.id].phase.dsn);
    } else if a.Drop? {
      NoWorkers(q.log, a.id, q.loops[a.id]);
    }
  }

  // What an action does to the goroutine of a recipient that waits for a courier.
  lemma {:induction false} WorkersFrame(q: Queue, a: Action, id: Id, r: nat)
    requires Enabled(q, a) && StartsAndEndsIdle(q, a)
    ensures Working(Next(q, a), id, r, Delivering) <==>
      || EventOf(q, a) == Some(Handed(id, r))
      || (Working(q, id, r, Delivering) && !(EventOf(q, a).Some? && Returns(EventOf(q, a).value, id, r)))
  {}

  lemma {:induction false} FlightKept(q: Queue, a: Action, id: Id, r: nat)
    requires Inv(q) && Enabled(q, a)
    ensures FlightOk(Next(q, a), id, r)
  {
    assert FlightOk(q, id, r);
    IdleAtTheEnds(q, a);
    WorkersFrame(q, a, id, r);
    if EventOf(q, a).Some? { FlightSnoc(q.log, EventOf(q, a).value, id, r); }
  }

  // ---------------------------------------------------------------- rounds

  // What is pending and passed after a step was so before it, or is handed over in it.
  lemma {:induction false} RoundFrame(q: Queue, a: Action, id: Id, r: nat)
    requires Enabled(q, a) && StartsAndEndsIdle(q, a) && id in LoopsAfter(q, a)
    requires a.Answer? ==> q.loops[a.id].item.statuses[a.rcpt] == Pending
    requires a.Launch? ==> q.loops[a.id].phase.next <= |q.loops[a.id].item.statuses|
    requires PassedPending(LoopsAfter(q, a)[id], r)
    ensures || EventOf(q, a) == Some(Handed(id, r))
            || (&& id in q.loops && PassedPending(q.loops[id], r)
                && (EventOf(q, a).Some? ==> SameRound(EventOf(q, a).value, id)))
  {}

  predicate SameRound(e: Event, id: Id) { !e.Crashed? && !(e.RoundStarted? && e.id == id) }

  lemma {:induction false} RoundKept(q: Queue, a: Action, id: Id)
    requires Inv(q) && Enabled(q, a) && id in Next(q, a).loops
    ensures RoundOk(Next(q, a).log, id, Next(q, a).loops[id])
  {
    var l := Next(q, a).loops[id];
    IdleAtTheEnds(q, a);
    if a.Answer? || a.Launch? { assert LoopOk(q.log, a.id, q.loops[a.id]); }
    if a.Answer? { assert WorkerOk(q.loops[a.id], a.rcpt); }
    forall r | 0 <= r < |l.item.statuses| && PassedPending(l, r) ensures Tried(Next(q, a).log, id, r) {
      RoundFrame(q, a, id, r);
      if EventOf(q, a).Some? { TriedSnoc(q.log, EventOf(q, a).value, id, r); }
      if id in q.loops { assert RoundOk(q.log, id, q.loops[id]); }
    }
  }

  lemma {:induction false} NextKeepsInv(q: Queue, a: Action)
    requires Inv(q) && Enabled(q, a)
    ensures Inv(Next(q, a))
  {
    var p := Next(q, a);
    if EventOf(q, a).Some? {
      AllowedStep(q, a);
      ProperSnoc(q.log, q.giveUpAfter, EventOf(q, a).value);
    }
    forall id | id in p.loops ensures LoopOk(p.log, id, p.loops[id]) { LoopsKept(q, a, id); }
    forall id ensures DiskOk(p.log, p.disk, id) { FilesKept(q, a, id); }
    forall id, r ensures FlightOk(p, id, r) { if r >= 0 { FlightKept(q, a, id, r); } }
    forall id | id in p.loops ensures RoundOk(p.log, id, p.loops[id]) { RoundKept(q, a, id); }
    forall id | id in p.puts ensures JustFiled(p, id) { PutsKept(q, a, id); }
    forall id | id in p.toLoad ensures LoadOk(p, id) { LoadsKept(q, a, id); }
    forall id | id in p.loops && p.loops[id].phase.Noting? ensures NoticeOk(p, p.loops[id].phase.dsn) {
      NoticesKept(q, a, id);
    }
  }

  lemma {:induction false} RunKeepsInv(now: int, giveUpAfter: int, actions: seq<Action>)
    requires Run(Empty(now, giveUpAfter), actions).Some?
    ensures var q := Run(Empty(now, giveUpAfter), actions).value; Inv(q) && q.giveUpAfter == giveUpAfter
  {
    if actions != [] {
      var n := |actions| - 1;
      RunKeepsInv(now, giveUpAfter, actions[..n]);
      NextKeepsInv(Run(Empty(now, giveUpAfter), actions[..n]).value, actions[n]);
    }
  }
}
