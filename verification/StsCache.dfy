/** internal/sts/sts.go: the policy cache, over every run of fetches, refreshes, failures, crashes and clock advances.
  * Files are written with SafeIO; the modification time of an entry is the time when it expires.
  */
module StsCache {
  import opened Text
  import opened Sts
  import opened SafeIO

  // The encoding of policies in files.
  datatype Codec = Codec(encode: Policy -> string, decode: string -> Option<Policy>)

  ghost predicate Lawful(c: Codec) { forall p :: c.decode(c.encode(p)) == Some(p) }

  function DomainPath(domain: string): string { "pol:" + domain }

  // A load that has looked at the modification time, at `since` and after `seen` completed writes, and has not read the
  // file yet.
  datatype Loading = Loading(domain: string, since: int, seen: nat)
  // A cache hit, by a load that read the file when the disk had seen `upTo` writes.
  datatype Hit = Hit(domain: string, policy: Policy, since: int, seen: nat, upTo: nat)

  // A call to store.
  datatype Stored = Stored(domain: string, policy: Policy, at: int)

  datatype Cache = Cache(disk: Disk, loads: map<nat, Loading>, hits: seq<Hit>, stores: seq<Stored>)

  datatype Action =
    | Store(id: nat, domain: string, policy: Policy)  // a fetched policy is about to be written
    | Io(action: SafeIO.Action)                       // a writer moves on or fails, the clock advances
    | Restart                                         // the process dies
    | Stat(load: nat, domain: string)
    | Read(load: nat)

  // Fetch only returns policies that pass Check, in the cache and in refresh.
  predicate Possible(c: Cache, codec: Codec, a: Action) {
    match a
    case Store(id, domain, p) => Check(p).None? && id !in c.disk.writers
    case Io(i) => !i.Call? && !i.Crash? && Enabled(c.disk, i)
    case Restart => true
    case Stat(l, domain) =>
      l !in c.loads && DomainPath(domain) in c.disk.files && c.disk.now <= c.disk.files[DomainPath(domain)].mtime
    case Read(l) => l in c.loads
  }

  // What load returns once it reads the file: nothing if the file cannot be read, parsed, or is not valid.
  function Loaded(c: Cache, codec: Codec, domain: string): Option<Policy> {
    if DomainPath(domain) !in c.disk.files then None
    else match codec.decode(c.disk.files[DomainPath(domain)].data)
      case None => None
      case Some(p) => if Check(p).None? then Some(p) else None
  }

  function Next(c: Cache, codec: Codec, a: Action): Cache
    requires Possible(c, codec, a)
  {
    match a
    case Store(id, domain, p) =>
      var call := Call(id, DomainPath(domain), codec.encode(p), Some(c.disk.now + p.maxAge));
      assert !Hidden(DomainPath(domain)) by { assert DomainPath(domain)[0] == 'p'; }
      c.(disk := Apply(c.disk, call), stores := c.stores + [Stored(domain, p, c.disk.now)])
    case Io(i) => c.(disk := Apply(c.disk, i))
    case Restart => c.(disk := Apply(c.disk, Crash), loads := map[])
    case Stat(l, domain) => c.(loads := c.loads[l := Loading(domain, c.disk.now, |c.disk.log|)])
    case Read(l) =>
      var load := c.loads[l];
      var found := Loaded(c, codec, load.domain);
      var c' := c.(loads := c.loads - {l});
      if found.None? then c'
      else c'.(hits := c.hits + [Hit(load.domain, found.value, load.since, load.seen, |c.disk.log|)])
  }

  function Run(c: Cache, codec: Codec, actions: seq<Action>): Option<Cache> {
    if actions == [] then Some(c)
    else
      var n := |actions| - 1;
      match Run(c, codec, actions[..n])
      case None => None
      case Some(e) => if Possible(e, codec, actions[n]) then Some(Next(e, codec, actions[n])) else None
  }

  function Empty(now: int): Cache { Cache(Disk(now, map[], map[], []), map[], [], []) }

  // ---------------------------------------------------------------- the invariant

  // The file that a call to store asks for.
  ghost predicate Made(codec: Codec, s: Stored, target: string, data: string, stamp: Option<int>) {
    && Check(s.policy).None?
    && target == DomainPath(s.domain) && data == codec.encode(s.policy) && stamp == Some(s.at + s.policy.maxAge)
  }

  // A call to store made no later than `time` asked for this file.
  ghost predicate Asked(c: Cache, codec: Codec, target: string, data: string, stamp: Option<int>, time: int) {
    exists k :: 0 <= k < |c.stores| && Made(codec, c.stores[k], target, data, stamp) && c.stores[k].at <= time
  }

  // An entry that had not expired at `since`, counting from when it was stored.
  ghost predicate Current(codec: Codec, e: Install, p: Policy, since: int) {
    Check(p).None? && e.data == codec.encode(p) && since <= e.at + p.maxAge
  }

  ghost predicate LoadOk(c: Cache, codec: Codec, l: Loading) {
    && l.since <= c.disk.now && l.seen <= |c.disk.log|
    && var e := Last(c.disk.log, DomainPath(l.domain));
       e.Some? && (exists p :: Current(codec, e.value, p, l.since))
       && (Unreplaced(c.disk.log, l) ==> Unexpired(e.value, l.since))
  }

  // The file was not written again since the load looked at it.
  predicate Unreplaced(log: seq<Install>, l: Loading) {
    forall j :: l.seen <= j < |log| ==> log[j].target != DomainPath(l.domain)
  }

  predicate Unexpired(e: Install, since: int) { e.stamp.Some? && since <= e.stamp.value }

  // The policy of a hit passes Check. It was written for that domain before the load returned, by a call to store, and
  // at most its MaxAge before the load began. If it was there when the load began, it had not reached the expiry
  // counted from that call.
  ghost predicate HitOk(c: Cache, codec: Codec, h: Hit) {
    exists k :: 0 <= k < h.upTo <= |c.disk.log| && HitBy(c, codec, h, c.disk.log[k], k < h.seen)
  }

  ghost predicate HitBy(c: Cache, codec: Codec, h: Hit, e: Install, there: bool) {
    && e.target == DomainPath(h.domain) && LogOk(c, codec, e) && Current(codec, e, h.policy, h.since)
    && (there ==> Unexpired(e, h.since))
  }

  ghost predicate LogOk(c: Cache, codec: Codec, e: Install) { Asked(c, codec, e.target, e.data, e.stamp, e.at) }

  ghost predicate CallOk(c: Cache, codec: Codec, w: Writer) {
    Asked(c, codec, w.target, w.data, w.stamp, c.disk.now)
  }

  ghost predicate CacheInv(c: Cache, codec: Codec) {
    && Inv(c.disk)
    && (forall k :: 0 <= k < |c.disk.log| ==> LogOk(c, codec, c.disk.log[k]))
    && (forall i :: i in c.disk.writers ==> CallOk(c, codec, c.disk.writers[i]))
    && (forall l :: l in c.loads ==> LoadOk(c, codec, c.loads[l]))
    && (forall k :: 0 <= k < |c.hits| ==> HitOk(c, codec, c.hits[k]))
  }

  // ---------------------------------------------------------------- each action keeps it

  // The action on the disk.
  function DiskAction(c: Cache, codec: Codec, a: Action): Option<SafeIO.Action>
    requires Possible(c, codec, a)
  {
    match a
    case Store(id, domain, p) => Some(Call(id, DomainPath(domain), codec.encode(p), Some(c.disk.now + p.maxAge)))
    case Io(i) => Some(i)
    case Restart => Some(Crash)
    case _ => None
  }

  lemma {:induction false} DiskKept(c: Cache, codec: Codec, a: Action)
    requires Inv(c.disk) && Possible(c, codec, a)
    ensures Inv(Next(c, codec, a).disk)
    ensures c.disk.log <= Next(c, codec, a).disk.log && c.disk.now <= Next(c, codec, a).disk.now
  {
    assert a.Store? ==> !Hidden(DomainPath(a.domain)) by { assert a.Store? ==> DomainPath(a.domain)[0] == 'p'; }
    match DiskAction(c, codec, a)
    case None =>
    case Some(i) => InvAfter(c.disk, i);
  }

  lemma {:induction false} AskedKept(
    c: Cache, d: Cache, codec: Codec, target: string, data: string, stamp: Option<int>, time: int, later: int)
    requires Asked(c, codec, target, data, stamp, time) && c.stores <= d.stores && time <= later
    ensures Asked(d, codec, target, data, stamp, later)
  {
    var k :| 0 <= k < |c.stores| && Made(codec, c.stores[k], target, data, stamp) && c.stores[k].at <= time;
    assert d.stores[k] == c.stores[k];
  }

  lemma {:induction false} LogKept(c: Cache, codec: Codec, a: Action, k: nat)
    requires CacheInv(c, codec) && Possible(c, codec, a) && k < |Next(c, codec, a).disk.log|
    ensures LogOk(Next(c, codec, a), codec, Next(c, codec, a).disk.log[k])
  {
    var d := Next(c, codec, a);
    var e := d.disk.log[k];
    if k < |c.disk.log| {
      assert LogOk(c, codec, c.disk.log[k]);
    } else {
      assert CallOk(c, codec, c.disk.writers[a.action.id]);
    }
    AskedKept(c, d, codec, e.target, e.data, e.stamp, e.at, e.at);
  }

  lemma {:induction false} WritersKept(c: Cache, codec: Codec, a: Action, i: nat)
    requires CacheInv(c, codec) && Possible(c, codec, a) && i in Next(c, codec, a).disk.writers
    ensures CallOk(Next(c, codec, a), codec, Next(c, codec, a).disk.writers[i])
  {
    DiskKept(c, codec, a);
    var d := Next(c, codec, a);
    var w := d.disk.writers[i];
    if i in c.disk.writers {
      assert CallOk(c, codec, c.disk.writers[i]);
      SameCall(c, codec, a, i);
      AskedKept(c, d, codec, w.target, w.data, w.stamp, c.disk.now, d.disk.now);
    } else {
      NewCall(c, codec, a, i);
    }
  }

  // A writer goes on with the call it was made for.
  lemma {:induction false} SameCall(c: Cache, codec: Codec, a: Action, i: nat)
    requires Possible(c, codec, a) && i in c.disk.writers && i in Next(c, codec, a).disk.writers
    ensures var w, w' := c.disk.writers[i], Next(c, codec, a).disk.writers[i];
      w'.target == w.target && w'.data == w.data && w'.stamp == w.stamp
    ensures c.stores <= Next(c, codec, a).stores
  {}

  lemma {:induction false} NewCall(c: Cache, codec: Codec, a: Action, i: nat)
    requires Possible(c, codec, a) && i !in c.disk.writers && i in Next(c, codec, a).disk.writers
    ensures CallOk(Next(c, codec, a), codec, Next(c, codec, a).disk.writers[i])
  {
    var d, w := Next(c, codec, a), Next(c, codec, a).disk.writers[i];
    assert a.Store? && a.id == i;
    assert d.stores[|c.stores|] == Stored(a.domain, a.policy, c.disk.now);
    assert Made(codec, d.stores[|c.stores|], w.target, w.data, w.stamp);
  }

  // A rename in the middle of a load can only bring a newer entry.
  lemma {:induction false} LoadKept(c: Cache, codec: Codec, a: Action, l: Loading)
    requires CacheInv(c, codec) && Possible(c, codec, a) && LoadOk(c, codec, l)
    ensures LoadOk(Next(c, codec, a), codec, l)
  {
    DiskKept(c, codec, a);
    var d := Next(c, codec, a).disk;
    if a.Io? && a.action.Rename? {
      var w := c.disk.writers[a.action.id];
      assert CallOk(c, codec, w);
      Replacing(c, codec, w, l);
      assert d.log == c.disk.log + [Install(w.target, w.data, w.stamp, c.disk.now)];
    } else {
      assert d.log == c.disk.log;
    }
  }

  lemma {:induction false} Replacing(c: Cache, codec: Codec, w: Writer, l: Loading)
    requires LoadOk(c, codec, l) && CallOk(c, codec, w)
    ensures var log := c.disk.log + [Install(w.target, w.data, w.stamp, c.disk.now)];
      var e := Last(log, DomainPath(l.domain));
      && e.Some? && (exists p :: Current(codec, e.value, p, l.since))
      && (Unreplaced(log, l) ==> Unexpired(e.value, l.since))
  {
    var e := Install(w.target, w.data, w.stamp, c.disk.now);
    var log := c.disk.log + [e];
    LastSnoc(c.disk.log, e, DomainPath(l.domain));
    var k :| 0 <= k < |c.stores| && Made(codec, c.stores[k], w.target, w.data, w.stamp);
    assert Current(codec, e, c.stores[k].policy, l.since);
    if Unreplaced(log, l) {
      assert log[|c.disk.log|] == e;
      assert Unreplaced(c.disk.log, l) by { assert forall j :: 0 <= j < |c.disk.log| ==> log[j] == c.disk.log[j]; }
    }
  }

  lemma {:induction false} StatOk(c: Cache, codec: Codec, domain: string)
    requires CacheInv(c, codec) && DomainPath(domain) in c.disk.files
    requires c.disk.now <= c.disk.files[DomainPath(domain)].mtime
    ensures LoadOk(c, codec, Loading(domain, c.disk.now, |c.disk.log|))
  {
    var name := DomainPath(domain);
    assert name[0] == 'p';
    assert ShowsLast(c.disk, name);
    LastMember(c.disk.log, name);
    var e := Last(c.disk.log, name).value;
    assert LogOk(c, codec, e);
    var k :| 0 <= k < |c.stores| && Made(codec, c.stores[k], e.target, e.data, e.stamp) && c.stores[k].at <= e.at;
    assert Current(codec, e, c.stores[k].policy, c.disk.now);
  }

  lemma {:induction false} ReadOk(c: Cache, codec: Codec, l: Loading)
    requires Lawful(codec) && CacheInv(c, codec) && LoadOk(c, codec, l) && Loaded(c, codec, l.domain).Some?
    ensures HitOk(c, codec, Hit(l.domain, Loaded(c, codec, l.domain).value, l.since, l.seen, |c.disk.log|))
  {
    var name := DomainPath(l.domain);
    assert name[0] == 'p';
    assert ShowsLast(c.disk, name);
    LastMember(c.disk.log, name);
    var k: nat :| LastAt(c.disk.log, name, k);
    var p :| Current(codec, c.disk.log[k], p, l.since);
    assert codec.decode(codec.encode(p)) == Some(p);
    assert k < l.seen ==> Unreplaced(c.disk.log, l);
    assert LogOk(c, codec, c.disk.log[k]);
  }

  lemma {:induction false} HitKept(c: Cache, d: Cache, codec: Codec, h: Hit)
    requires HitOk(c, codec, h) && c.disk.log <= d.disk.log && c.stores <= d.stores
    ensures HitOk(d, codec, h)
  {
    var k :| 0 <= k < h.upTo <= |c.disk.log| && HitBy(c, codec, h, c.disk.log[k], k < h.seen);
    var e := c.disk.log[k];
    assert d.disk.log[k] == e;
    AskedKept(c, d, codec, e.target, e.data, e.stamp, e.at, e.at);
  }

  lemma {:induction false} LoadsKept(c: Cache, codec: Codec, a: Action, l: nat)
    requires CacheInv(c, codec) && Possible(c, codec, a) && l in Next(c, codec, a).loads
    ensures LoadOk(Next(c, codec, a), codec, Next(c, codec, a).loads[l])
  {
    if l in c.loads {
      assert LoadOk(c, codec, c.loads[l]);
      LoadKept(c, codec, a, c.loads[l]);
    } else {
      StatOk(c, codec, a.domain);
      LoadKept(c, codec, a, Loading(a.domain, c.disk.now, |c.disk.log|));
    }
  }

  lemma {:induction false} HitsKept(c: Cache, codec: Codec, a: Action, k: nat)
    requires Lawful(codec) && CacheInv(c, codec) && Possible(c, codec, a) && k < |Next(c, codec, a).hits|
    ensures HitOk(Next(c, codec, a), codec, Next(c, codec, a).hits[k])
  {
    DiskKept(c, codec, a);
    var d := Next(c, codec, a);
    if k < |c.hits| {
      assert HitOk(c, codec, c.hits[k]);
      assert d.hits[k] == c.hits[k];
    } else {
      assert LoadOk(c, codec, c.loads[a.load]);
      ReadOk(c, codec, c.loads[a.load]);
    }
    HitKept(c, d, codec, d.hits[k]);
  }

  lemma {:induction false} NextKeepsInv(c: Cache, codec: Codec, a: Action)
    requires Lawful(codec) && CacheInv(c, codec) && Possible(c, codec, a)
    ensures CacheInv(Next(c, codec, a), codec)
  {
    var d := Next(c, codec, a);
    DiskKept(c, codec, a);
    forall k | 0 <= k < |d.disk.log| ensures LogOk(d, codec, d.disk.log[k]) { LogKept(c, codec, a, k); }
    forall i | i in d.disk.writers ensures CallOk(d, codec, d.disk.writers[i]) { WritersKept(c, codec, a, i); }
    forall l | l in d.loads ensures LoadOk(d, codec, d.loads[l]) { LoadsKept(c, codec, a, l); }
    forall k | 0 <= k < |d.hits| ensures HitOk(d, codec, d.hits[k]) { HitsKept(c, codec, a, k); }
  }

  lemma {:induction false} RunKeepsInv(now: int, codec: Codec, actions: seq<Action>)
    requires Lawful(codec) && Run(Empty(now), codec, actions).Some?
    ensures CacheInv(Run(Empty(now), codec, actions).value, codec)
  {
    if actions != [] {
      var n := |actions| - 1;
      RunKeepsInv(now, codec, actions[..n]);
      NextKeepsInv(Run(Empty(now), codec, actions[..n]).value, codec, actions[n]);
    }
  }

  // ---------------------------------------------------------------- main results

  // Freshness over every run: each policy the cache ever returned passes Check and had been written for that domain,
  // by a call to store that asked for it, at most its MaxAge before the load that returned it.
  lemma {:induction false} HitsAreFresh(now: int, codec: Codec, actions: seq<Action>, k: nat)
    requires Lawful(codec) && Run(Empty(now), codec, actions).Some?
    requires k < |Run(Empty(now), codec, actions).value.hits|
    ensures var c := Run(Empty(now), codec, actions).value;
      Check(c.hits[k].policy).None? && HitOk(c, codec, c.hits[k])
  {
    RunKeepsInv(now, codec, actions);
    var c := Run(Empty(now), codec, actions).value;
    assert HitOk(c, codec, c.hits[k]);
  }

  // The cache is of use: at every moment of every run, a load can look at an entry if and only if the last write of the
  // domain has not reached its expiry, and if it reads on at once it returns the policy that was stored.
  lemma {:induction false} FreshEntryIsReturned(now: int, codec: Codec, actions: seq<Action>, domain: string, l: nat)
    requires Lawful(codec) && Run(Empty(now), codec, actions).Some?
    requires l !in Run(Empty(now), codec, actions).value.loads
    ensures var c := Run(Empty(now), codec, actions).value;
      var e := Last(c.disk.log, DomainPath(domain));
      && (Possible(c, codec, Stat(l, domain)) <==> e.Some? && e.value.stamp.Some? && c.disk.now <= e.value.stamp.value)
      && (Possible(c, codec, Stat(l, domain)) ==>
            var d := Next(Next(c, codec, Stat(l, domain)), codec, Read(l));
            exists k :: 0 <= k < |c.stores| && Made(codec, c.stores[k], DomainPath(domain), e.value.data, e.value.stamp)
                     && Returned(c, d, domain, c.stores[k].policy))
  {
    RunKeepsInv(now, codec, actions);
    var c := Run(Empty(now), codec, actions).value;
    var name := DomainPath(domain);
    assert name[0] == 'p';
    assert ShowsLast(c.disk, name);
    if Last(c.disk.log, name).Some? {
      LastMember(c.disk.log, name);
      var e := Last(c.disk.log, name).value;
      assert LogOk(c, codec, e);
      var k :| 0 <= k < |c.stores| && Made(codec, c.stores[k], e.target, e.data, e.stamp);
      assert codec.decode(codec.encode(c.stores[k].policy)) == Some(c.stores[k].policy);
    }
  }

  // One more hit, with this policy.
  predicate Returned(c: Cache, d: Cache, domain: string, p: Policy) {
    && |d.hits| == |c.hits| + 1 && d.hits[..|c.hits|] == c.hits
    && d.hits[|c.hits|].domain == domain && d.hits[|c.hits|].policy == p
  }

  // At every moment of every run, what is on disk for a domain is the whole of a valid policy stored for that domain,
  // with the expiry that was set for it.
  lemma {:induction false} EntriesAreWhole(now: int, codec: Codec, actions: seq<Action>, domain: string)
    requires Lawful(codec) && Run(Empty(now), codec, actions).Some?
    requires DomainPath(domain) in Run(Empty(now), codec, actions).value.disk.files
    ensures var c := Run(Empty(now), codec, actions).value;
      var f := c.disk.files[DomainPath(domain)];
      Asked(c, codec, DomainPath(domain), f.data, Some(f.mtime), c.disk.now)
  {
    RunKeepsInv(now, codec, actions);
    var c := Run(Empty(now), codec, actions).value;
    var name := DomainPath(domain);
    assert name[0] == 'p';
    assert ShowsLast(c.disk, name);
    LastMember(c.disk.log, name);
    var e := Last(c.disk.log, name).value;
    assert LogOk(c, codec, e);
    AskedKept(c, c, codec, name, e.data, e.stamp, e.at, c.disk.now);
    assert exists k :: 0 <= k < |c.stores| && Made(codec, c.stores[k], name, e.data, e.stamp) && c.stores[k].at <= e.at;
  }

  // A refresh that fails anywhere short of its rename leaves every entry as it was.
  lemma {:induction false} FailedRefreshKeepsEntry(c: Cache, codec: Codec, a: Action, domain: string)
    requires CacheInv(c, codec) && Possible(c, codec, a)
    requires !(a.Io? && a.action.Rename? && c.disk.writers[a.action.id].target == DomainPath(domain))
    ensures var name, d := DomainPath(domain), Next(c, codec, a);
      && (name in c.disk.files <==> name in d.disk.files)
      && (name in c.disk.files ==> d.disk.files[name] == c.disk.files[name])
  {
    assert DomainPath(domain)[0] == 'p';
    assert a.Store? ==> !Hidden(DomainPath(a.domain)) by { assert a.Store? ==> DomainPath(a.domain)[0] == 'p'; }
    match DiskAction(c, codec, a)
    case None =>
    case Some(i) => OnlyRenameShows(c.disk, i, DomainPath(domain));
  }
}
