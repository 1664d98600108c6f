/** internal/safeio/safeio.go: WriteFile as file-system steps, for any number of concurrent writers, each of which can
  * fail or be cut off by a crash between any two steps.
  */
module SafeIO {
  import opened Text

  datatype File = File(data: string, mtime: int)

  // Where a writer is: before CreateTemp, after writing n bytes, after Close, after the operations on the file.
  datatype Stage = Called | Filled(n: nat) | Closed | Finished

  // A call to WriteFile. `stamp` is the operation that sets the modification time, if one was given.
  datatype Writer = Writer(target: string, data: string, stamp: Option<int>, tmp: string, stage: Stage)

  // A rename that happened: what the caller asked for, and when it became visible.
  datatype Install = Install(target: string, data: string, stamp: Option<int>, at: int)

  datatype Disk = Disk(now: int, files: map<string, File>, writers: map<nat, Writer>, log: seq<Install>)

  datatype Action =
    | Tick(to: int)
    | Call(id: nat, target: string, data: string, stamp: Option<int>)
    | Create(id: nat, tmp: string)
    | Fill(id: nat, n: nat)
    | Close(id: nat)
    | RunOps(id: nat)
    | Rename(id: nat)
    | Fail(id: nat, removed: bool)  // any error; the temporary file may stay behind
    | Crash

  predicate Hidden(name: string) { name != "" && name[0] == '.' }

  predicate At(d: Disk, id: nat, stage: Stage) { id in d.writers && d.writers[id].stage == stage }

  predicate Enabled(d: Disk, a: Action) {
    match a
    case Tick(to) => to >= d.now
    case Call(id, target, _, _) => id !in d.writers && !Hidden(target)
    case Create(id, tmp) => At(d, id, Called) && Hidden(tmp) && tmp !in d.files
    case Fill(id, n) =>
      id in d.writers && d.writers[id].stage.Filled? && d.writers[id].stage.n <= n <= |d.writers[id].data|
    case Close(id) => id in d.writers && At(d, id, Filled(|d.writers[id].data|))
    case RunOps(id) => At(d, id, Closed) && d.writers[id].tmp in d.files
    case Rename(id) => At(d, id, Finished) && d.writers[id].tmp in d.files
    case Fail(id, _) => id in d.writers
    case Crash => true
  }

  function Moved(d: Disk, id: nat, stage: Stage): map<nat, Writer>
    requires id in d.writers
  {
    d.writers[id := d.writers[id].(stage := stage)]
  }

  function Apply(d: Disk, a: Action): Disk
    requires Enabled(d, a)
  {
    match a
    case Tick(to) => d.(now := to)
    case Call(id, target, data, stamp) => d.(writers := d.writers[id := Writer(target, data, stamp, "", Called)])
    case Create(id, tmp) =>
      d.(files := d.files[tmp := File("", d.now)],
         writers := d.writers[id := d.writers[id].(tmp := tmp, stage := Filled(0))])
    case Fill(id, n) =>
      var w := d.writers[id];
      d.(files := d.files[w.tmp := File(w.data[..n], d.now)], writers := Moved(d, id, Filled(n)))
    case Close(id) => d.(writers := Moved(d, id, Closed))
    case RunOps(id) =>
      var w := d.writers[id];
      var f := d.files[w.tmp];
      d.(files := d.files[w.tmp := if w.stamp.Some? then f.(mtime := w.stamp.value) else f],
         writers := Moved(d, id, Finished))
    case Rename(id) =>
      var w := d.writers[id];
      d.(files := d.files[w.target := d.files[w.tmp]] - {w.tmp}, writers := d.writers - {id},
         log := d.log + [Install(w.target, w.data, w.stamp, d.now)])
    case Fail(id, removed) =>
      var w := d.writers[id];
      d.(files := if removed && !w.stage.Called? then d.files - {w.tmp} else d.files, writers := d.writers - {id})
    case Crash => d.(writers := map[])
  }

  // The state after a sequence of actions, if each was possible.
  function After(d: Disk, actions: seq<Action>): Option<Disk> {
    if actions == [] then Some(d)
    else
      var n := |actions| - 1;
      match After(d, actions[..n])
      case None => None
      case Some(e) => if Enabled(e, actions[n]) then Some(Apply(e, actions[n])) else None
  }

  // ---------------------------------------------------------------- the invariant

  // The last write of a name to complete.
  function Last(log: seq<Install>, name: string): Option<Install> {
    if log == [] then None
    else if log[|log| - 1].target == name then Some(log[|log| - 1])
    else Last(log[..|log| - 1], name)
  }

  predicate Holds(f: File, data: string, stamp: Option<int>) {
    f.data == data && (stamp.Some? ==> f.mtime == stamp.value)
  }

  // A visible name holds exactly what the last completed write of it asked for.
  predicate ShowsLast(d: Disk, name: string) {
    match Last(d.log, name)
    case None => name !in d.files
    case Some(e) => name in d.files && Holds(d.files[name], e.data, e.stamp)
  }

  predicate WriterOk(d: Disk, w: Writer) {
    && !Hidden(w.target)
    && (!w.stage.Called? ==> Hidden(w.tmp) && w.tmp in d.files && TempOk(d.files[w.tmp], w))
  }

  predicate TempOk(f: File, w: Writer) {
    match w.stage
    case Called => true
    case Filled(n) => n <= |w.data| && f.data == w.data[..n]
    case Closed => f.data == w.data
    case Finished => Holds(f, w.data, w.stamp)
  }

  predicate Apart(d: Disk, i: nat, j: nat)
    requires i in d.writers && j in d.writers
  {
    d.writers[i].stage.Called? || d.writers[j].stage.Called? || d.writers[i].tmp != d.writers[j].tmp
  }

  ghost predicate Inv(d: Disk) {
    && (forall name :: !Hidden(name) ==> ShowsLast(d, name))
    && (forall i :: i in d.writers ==> WriterOk(d, d.writers[i]))
    && (forall i, j :: i in d.writers && j in d.writers && i != j ==> Apart(d, i, j))
    && (forall k :: 0 <= k < |d.log| ==> d.log[k].at <= d.now)
  }

  lemma {:induction false} LastSnoc(log: seq<Install>, e: Install, name: string)
    ensures Last(log + [e], name) == if e.target == name then Some(e) else Last(log, name)
  {
    assert (log + [e])[..|log|] == log;
  }

  lemma {:induction false} LastMember(log: seq<Install>, name: string)
    requires Last(log, name).Some?
    ensures exists k :: LastAt(log, name, k)
  {
    var n := |log| - 1;
    if log[n].target != name {
      LastMember(log[..n], name);
      var k: nat :| LastAt(log[..n], name, k);
      assert forall j :: 0 <= j < n ==> log[..n][j] == log[j];
      assert LastAt(log, name, k);
    } else {
      assert LastAt(log, name, n);
    }
  }

  // The last write of the name to complete is the k-th of all.
  predicate LastAt(log: seq<Install>, name: string, k: nat) {
    && k < |log| && Last(log, name) == Some(log[k]) && log[k].target == name
    && forall j :: k < j < |log| ==> log[j].target != name
  }

  // ---------------------------------------------------------------- what an action does to visible files

  // Only a rename changes a visible name, and only its target: partial writes, failures and crashes show nothing.
  lemma {:induction false} OnlyRenameShows(d: Disk, a: Action, name: string)
    requires Inv(d) && Enabled(d, a) && !Hidden(name)
    requires !(a.Rename? && d.writers[a.id].target == name)
    ensures name in d.files <==> name in Apply(d, a).files
    ensures name in d.files ==> Apply(d, a).files[name] == d.files[name]
  {
    if a.Fill? || a.RunOps? || a.Rename? || a.Fail? {
      assert WriterOk(d, d.writers[a.id]);
    }
  }

  // A rename shows the whole of the data with the time set: never a part of it.
  lemma {:induction false} RenameShowsAll(d: Disk, id: nat)
    requires Inv(d) && Enabled(d, Rename(id))
    ensures var e, w := Apply(d, Rename(id)), d.writers[id];
      w.target in e.files && Holds(e.files[w.target], w.data, w.stamp)
  {
    assert WriterOk(d, d.writers[id]);
  }

  lemma {:induction false} ShowsAfter(d: Disk, a: Action, name: string)
    requires Inv(d) && Enabled(d, a) && !Hidden(name)
    ensures ShowsLast(Apply(d, a), name)
  {
    assert ShowsLast(d, name);
    if a.Rename? {
      var w := d.writers[a.id];
      LastSnoc(d.log, Install(w.target, w.data, w.stamp, d.now), name);
      RenameShowsAll(d, a.id);
    }
    if !(a.Rename? && d.writers[a.id].target == name) {
      OnlyRenameShows(d, a, name);
    }
  }

  lemma {:induction false} WritersAfter(d: Disk, a: Action, i: nat)
    requires Inv(d) && Enabled(d, a) && i in Apply(d, a).writers
    ensures WriterOk(Apply(d, a), Apply(d, a).writers[i])
  {
    if i in d.writers {
      assert WriterOk(d, d.writers[i]);
      if a.Create? || a.Fill? || a.RunOps? || a.Rename? || a.Fail? || a.Close? {
        assert WriterOk(d, d.writers[a.id]);
        if a.id != i { assert Apart(d, a.id, i); }
      }
      if a.Close? && a.id == i {
        assert d.writers[i].data[..|d.writers[i].data|] == d.writers[i].data;
      }
    }
  }

  lemma {:induction false} ApartAfter(d: Disk, a: Action, i: nat, j: nat)
    requires Inv(d) && Enabled(d, a) && i != j && i in Apply(d, a).writers && j in Apply(d, a).writers
    ensures Apart(Apply(d, a), i, j)
  {
    if i in d.writers && j in d.writers {
      assert Apart(d, i, j) && WriterOk(d, d.writers[i]) && WriterOk(d, d.writers[j]);
    }
  }

  lemma {:induction false} InvAfter(d: Disk, a: Action)
    requires Inv(d) && Enabled(d, a)
    ensures Inv(Apply(d, a))
  {
    var e := Apply(d, a);
    forall name | !Hidden(name) ensures ShowsLast(e, name) { ShowsAfter(d, a, name); }
    forall i | i in e.writers ensures WriterOk(e, e.writers[i]) { WritersAfter(d, a, i); }
    forall i, j | i in e.writers && j in e.writers && i != j ensures Apart(e, i, j) { ApartAfter(d, a, i, j); }
  }

  // WriteFile is atomic over every run: whatever fails, crashes or interleaves, a visible name holds the data and
  // the time of the last completed write of it, or is absent if there was none.
  lemma {:induction false} Atomic(d: Disk, actions: seq<Action>, name: string)
    requires Inv(d) && After(d, actions).Some? && !Hidden(name)
    ensures ShowsLast(After(d, actions).value, name)
  {
    InvRun(d, actions);
  }

  lemma {:induction false} InvRun(d: Disk, actions: seq<Action>)
    requires Inv(d) && After(d, actions).Some?
    ensures Inv(After(d, actions).value)
  {
    if actions != [] {
      var n := |actions| - 1;
      InvRun(d, actions[..n]);
      InvAfter(After(d, actions[..n]).value, actions[n]);
    }
  }

  // ---------------------------------------------------------------- one call, undisturbed

  // The step of WriteFile that fails, if one does.
  datatype Trouble = Nothing | AtCreate | AtChmod | AtChown | AtWrite(n: nat) | AtClose | AtOps | AtRename

  // Only the writer and its temporary file are new.
  ghost predicate Underway(d: Disk, e: Disk, id: nat, w: Writer, f: File) {
    && id !in d.writers && w.tmp !in d.files && Hidden(w.tmp)
    && e == d.(files := d.files[w.tmp := f], writers := d.writers[id := w])
  }

  lemma {:induction false} FillStep(d: Disk, e: Disk, id: nat, w: Writer, f: File, n: nat)
    requires Underway(d, e, id, w, f) && w.stage == Filled(0) && n <= |w.data|
    ensures Enabled(e, Fill(id, n))
    ensures Underway(d, Apply(e, Fill(id, n)), id, w.(stage := Filled(n)), File(w.data[..n], d.now))
  {}

  lemma {:induction false} CloseStep(d: Disk, e: Disk, id: nat, w: Writer, f: File)
    requires Underway(d, e, id, w, f) && w.stage == Filled(|w.data|)
    ensures Enabled(e, Close(id)) && Underway(d, Apply(e, Close(id)), id, w.(stage := Closed), f)
  {}

  lemma {:induction false} OpsStep(d: Disk, e: Disk, id: nat, w: Writer, f: File)
    requires Underway(d, e, id, w, f) && w.stage == Closed
    ensures Enabled(e, RunOps(id))
    ensures Underway(d, Apply(e, RunOps(id)), id, w.(stage := Finished),
                     if w.stamp.Some? then f.(mtime := w.stamp.value) else f)
  {}

  lemma {:induction false} RenameStep(d: Disk, e: Disk, id: nat, w: Writer, f: File)
    requires Underway(d, e, id, w, f) && w.stage == Finished && !Hidden(w.target)
    ensures Enabled(e, Rename(id))
    ensures Apply(e, Rename(id)) ==
            d.(files := d.files[w.target := f], log := d.log + [Install(w.target, w.data, w.stamp, d.now)])
  {
    assert d.writers[id := w] - {id} == d.writers;
    assert (d.files[w.tmp := f])[w.target := f] - {w.tmp} == d.files[w.target := f];
  }

  lemma {:induction false} FailStep(d: Disk, e: Disk, id: nat, w: Writer, f: File, removed: bool)
    requires Underway(d, e, id, w, f) && !w.stage.Called?
    ensures Enabled(e, Fail(id, removed))
    ensures Apply(e, Fail(id, removed)) == if removed then d else d.(files := d.files[w.tmp := f])
  {
    assert d.writers[id := w] - {id} == d.writers;
    assert d.files[w.tmp := f] - {w.tmp} == d.files;
  }

  class Directory {
    var disk: Disk
    ghost var trail: seq<Action>  // every step taken since the directory was empty
    ghost const start: int

    ghost predicate Valid()
      reads this
    {
      After(Disk(start, map[], map[], []), trail) == Some(disk)
    }

    constructor (now: int)
      ensures Valid() && disk == Disk(now, map[], map[], []) && trail == []
    {
      disk, trail, start := Disk(now, map[], map[], []), [], now;
    }

    method Take(a: Action)
      requires Valid() && Enabled(disk, a)
      modifies this
      ensures Valid() && disk == Apply(old(disk), a) && trail == old(trail) + [a]
    {
      assert (trail + [a])[..|trail|] == trail;
      disk := Apply(disk, a);
      trail := trail + [a];
    }

    // WriteFile up to Close: the temporary file is complete, or everything is as it was.
    method WriteTemp(id: nat, target: string, data: string, stamp: Option<int>, tmp: string, trouble: Trouble)
      returns (ok: bool, ghost d: Disk)
      requires Valid() && id !in disk.writers && !Hidden(target) && Hidden(tmp) && tmp !in disk.files
      requires trouble.AtWrite? ==> trouble.n <= |data|
      modifies this
      ensures Valid() && d == old(disk)
      ensures ok <==> trouble.Nothing? || trouble.AtOps? || trouble.AtRename?
      ensures ok ==> Underway(d, disk, id, Writer(target, data, stamp, tmp, Closed), File(data, d.now))
      ensures !ok ==> disk == d
    {
      d := disk;
      Take(Call(id, target, data, stamp));
      if trouble.AtCreate? {
        assert d.writers[id := disk.writers[id]] - {id} == d.writers;
        Take(Fail(id, false));
        return false, d;
      }
      Take(Create(id, tmp));
      ghost var w, f := Writer(target, data, stamp, tmp, Filled(0)), File("", d.now);
      if trouble.AtChmod? || trouble.AtChown? {
        FailStep(d, disk, id, w, f, true);
        Take(Fail(id, true));
        return false, d;
      }
      var n := if trouble.AtWrite? then trouble.n else |data|;
      FillStep(d, disk, id, w, f, n);
      Take(Fill(id, n));
      w, f := w.(stage := Filled(n)), File(data[..n], d.now);
      if trouble.AtWrite? || trouble.AtClose? {
        FailStep(d, disk, id, w, f, true);
        Take(Fail(id, true));
        return false, d;
      }
      assert data[..n] == data;
      CloseStep(d, disk, id, w, f);
      Take(Close(id));
      return true, d;
    }

    // WriteFile: on success the target holds the data and the time that was set, and nothing else changed; on failure
    // nothing changed at all, unless it was the rename that failed and the temporary file stays behind.
    method WriteFile(id: nat, target: string, data: string, stamp: Option<int>, tmp: string, trouble: Trouble)
      returns (ok: bool, ghost f: File)
      requires Valid() && id !in disk.writers && !Hidden(target) && Hidden(tmp) && tmp !in disk.files
      requires trouble.AtWrite? ==> trouble.n <= |data|
      modifies this
      ensures Valid() && (ok <==> trouble.Nothing?) && Holds(f, data, stamp)
      ensures ok ==> disk == old(disk).(files := old(disk.files)[target := f],
                                        log := old(disk.log) + [Install(target, data, stamp, old(disk.now))])
      ensures trouble.AtRename? ==> disk == old(disk).(files := old(disk.files)[tmp := f])
      ensures !ok && !trouble.AtRename? ==> disk == old(disk)
    {
      ghost var d, temp;
      f := File(data, if stamp.Some? then stamp.value else disk.now);
      ok, d := WriteTemp(id, target, data, stamp, tmp, trouble);
      if !ok {
        return false, f;
      }
      ghost var w := Writer(target, data, stamp, tmp, Closed);
      temp := File(data, d.now);
      if trouble.AtOps? {
        FailStep(d, disk, id, w, temp, true);
        Take(Fail(id, true));
        return false, f;
      }
      OpsStep(d, disk, id, w, temp);
      Take(RunOps(id));
      w := w.(stage := Finished);
      if trouble.AtRename? {
        FailStep(d, disk, id, w, f, false);
        Take(Fail(id, false));
        return false, f;
      }
      RenameStep(d, disk, id, w, f);
      Take(Rename(id));
      return true, f;
    }
  }
}
