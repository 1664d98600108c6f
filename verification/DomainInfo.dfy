/** internal/domaininfo/domaininfo.go: the security levels seen per domain, which may only rise. */
module DomainInfo {
  import opened Text

  const PLAIN := 0
  const TLS_CLIENT := 1
  const TLS_INSECURE := 2
  const TLS_SECURE := 3

  datatype Direction = Incoming | Outgoing

  datatype Domain = Domain(incoming: nat, outgoing: nat) {
    function Level(dir: Direction): nat { if dir == Incoming then incoming else outgoing }
    function Raised(dir: Direction, level: nat): Domain {
      if dir == Incoming then this.(incoming := level) else this.(outgoing := level)
    }
  }

  const NEW := Domain(PLAIN, PLAIN)

  type Levels = map<string, Domain>

  function Lookup(m: Levels, domain: string): Option<Domain> { if domain in m then Some(m[domain]) else None }

  function LevelOf(d: Option<Domain>, dir: Direction): nat { if d.Some? then d.value.Level(dir) else PLAIN }

  // ---------------------------------------------------------------- histories

  // Whether an operation wrote the domain to the store.
  datatype Write = NoWrite | Saved | Unsaved

  datatype Event =
    | Asked(dir: Direction, domain: string, level: nat, allowed: bool, write: Write)
    | Cleared(domain: string, write: Write)
    | Reloaded  // a reload or a restart

  type History = seq<Event>

  predicate About(e: Event, domain: string) { !e.Reloaded? && e.domain == domain }

  // What an event about a domain makes of its levels.
  function Changed(was: Option<Domain>, e: Event): Domain
    requires !e.Reloaded?
  {
    match e
    case Asked(dir, _, level, _, _) =>
      var d := if was.Some? then was.value else NEW;
      if level > d.Level(dir) then d.Raised(dir, level) else d
    case Cleared(_, _) => NEW
  }

  // The levels of a domain in memory, and in the store.
  function Memory(h: History, domain: string): Option<Domain>
    decreases |h|, 1
  {
    if h == [] then None
    else
      var before, e := h[..|h| - 1], h[|h| - 1];
      if e.Reloaded? then Store(before, domain)
      else if e.domain == domain then Some(Changed(Memory(before, domain), e))
      else Memory(before, domain)
  }

  function Store(h: History, domain: string): Option<Domain>
    decreases |h|, 0
  {
    if h == [] then None
    else
      var before, e := h[..|h| - 1], h[|h| - 1];
      if About(e, domain) && e.write.Saved? then Some(Changed(Memory(before, domain), e)) else Store(before, domain)
  }

  // The highest level allowed for a domain and direction since its levels were last cleared.
  function Floor(h: History, dir: Direction, domain: string): nat {
    if h == [] then PLAIN
    else
      var before := Floor(h[..|h| - 1], dir, domain);
      match h[|h| - 1]
      case Asked(d, name, level, allowed, _) =>
        if d == dir && name == domain && allowed && level > before then level else before
      case Cleared(name, _) => if name == domain then PLAIN else before
      case Reloaded => before
  }

  // Every event says what the database answered, and whether a write was due.
  ghost predicate Faithful(h: History) {
    h == [] || (Faithful(h[..|h| - 1]) && FaithfulEvent(h[..|h| - 1], h[|h| - 1]))
  }

  predicate FaithfulEvent(before: History, e: Event) {
    match e
    case Asked(dir, domain, level, allowed, write) =>
      var m := Memory(before, domain);
      && (allowed <==> level >= LevelOf(m, dir))
      && (write.NoWrite? <==> m.Some? && level <= LevelOf(m, dir))
    case Cleared(domain, write) => !write.NoWrite? && Memory(before, domain).Some?
    case Reloaded => true
  }

  lemma {:induction false} Snoc(h: History, e: Event, domain: string)
    ensures Memory(h + [e], domain) ==
      (if e.Reloaded? then Store(h, domain)
       else if e.domain == domain then Some(Changed(Memory(h, domain), e)) else Memory(h, domain))
    ensures Store(h + [e], domain) ==
      (if About(e, domain) && e.write.Saved? then Some(Changed(Memory(h, domain), e)) else Store(h, domain))
  {
    assert (h + [e])[..|h|] == h;
  }

  lemma {:induction false} FaithfulSnoc(h: History, e: Event)
    requires Faithful(h) && FaithfulEvent(h, e)
    ensures Faithful(h + [e])
  {
    assert (h + [e])[..|h|] == h;
  }

  lemma {:induction false} FaithfulAt(h: History, k: nat)
    requires Faithful(h) && k < |h|
    ensures Faithful(h[..k]) && FaithfulEvent(h[..k], h[k])
  {
    var n := |h| - 1;
    if k < n {
      FaithfulAt(h[..n], k);
      assert h[..n][..k] == h[..k];
    }
  }

  // ---------------------------------------------------------------- when the answers are right

  // k is after the last time the levels of the domain were cleared.
  predicate SinceClear(h: History, domain: string, k: nat) {
    forall j :: k < j < |h| ==> !(h[j].Cleared? && h[j].domain == domain)
  }

  // At step k this level was allowed.
  predicate AllowedAt(h: History, k: nat, dir: Direction, domain: string, level: nat)
    requires k < |h|
  {
    h[k].Asked? && h[k].dir == dir && h[k].domain == domain && h[k].allowed && h[k].level == level
  }

  // Being at least the floor is being at least every level allowed since the last clear.
  lemma {:induction false} FloorMeaning(h: History, dir: Direction, domain: string, level: nat)
    ensures level >= Floor(h, dir, domain) <==>
      forall k, l :: 0 <= k < |h| && AllowedAt(h, k, dir, domain, l) && SinceClear(h, domain, k) ==> level >= l
  {
    if h != [] {
      var n := |h| - 1;
      var init, e := h[..n], h[n];
      FloorMeaning(init, dir, domain, level);
      assert forall k, l :: 0 <= k < n ==> (AllowedAt(init, k, dir, domain, l) <==> AllowedAt(h, k, dir, domain, l));
      if e.Cleared? && e.domain == domain {
        assert forall k :: 0 <= k < n ==> !SinceClear(h, domain, k);
      } else {
        SinceClearSnoc(h, domain);
        if level >= Floor(init, dir, domain) && level < Floor(h, dir, domain) {
          assert AllowedAt(h, n, dir, domain, e.level) && SinceClear(h, domain, n);
        } else if level < Floor(init, dir, domain) {
          var k, l :| 0 <= k < n && AllowedAt(init, k, dir, domain, l) && SinceClear(init, domain, k) && level < l;
          assert AllowedAt(h, k, dir, domain, l) && SinceClear(h, domain, k);
        }
      }
    }
  }

  lemma {:induction false} SinceClearSnoc(h: History, domain: string)
    requires h != [] && !(h[|h| - 1].Cleared? && h[|h| - 1].domain == domain)
    ensures forall k :: 0 <= k < |h| - 1 ==> (SinceClear(h[..|h| - 1], domain, k) <==> SinceClear(h, domain, k))
  {
    var n := |h| - 1;
    var init := h[..n];
    assert forall j :: 0 <= j < n ==> init[j] == h[j];
    forall k | 0 <= k < n ensures SinceClear(init, domain, k) <==> SinceClear(h, domain, k) {
      if SinceClear(h, domain, k) {
        forall j | k < j < n ensures !(init[j].Cleared? && init[j].domain == domain) { assert h[j] == init[j]; }
      }
    }
  }

  // The answers for a domain and direction are right for every level: exactly the levels that are at least the floor
  // are allowed.
  ghost predicate Right(h: History, dir: Direction, domain: string) {
    forall level :: 0 <= level ==> RightFor(h, dir, domain, level)
  }

  predicate RightFor(h: History, dir: Direction, domain: string, level: nat) {
    level >= LevelOf(Memory(h, domain), dir) <==> level >= Floor(h, dir, domain)
  }

  // They are right if and only if the level in memory is the floor.
  lemma {:induction false} RightMeaning(h: History, dir: Direction, domain: string)
    ensures Right(h, dir, domain) <==> LevelOf(Memory(h, domain), dir) == Floor(h, dir, domain)
  {
    var m, f := LevelOf(Memory(h, domain), dir), Floor(h, dir, domain);
    if Right(h, dir, domain) {
      assert RightFor(h, dir, domain, m) && RightFor(h, dir, domain, f);
    }
  }

  // Operations keep right answers right; only a reload can make them wrong.
  lemma {:induction false} RightStays(h: History, e: Event, dir: Direction, domain: string)
    requires FaithfulEvent(h, e) && !e.Reloaded? && LevelOf(Memory(h, domain), dir) == Floor(h, dir, domain)
    ensures LevelOf(Memory(h + [e], domain), dir) == Floor(h + [e], dir, domain)
  {
    Snoc(h, e, domain);
    assert (h + [e])[..|h|] == h;
  }

  lemma {:induction false} RightUntilReload(h: History, dir: Direction, domain: string)
    requires Faithful(h) && Reloaded !in h
    ensures LevelOf(Memory(h, domain), dir) == Floor(h, dir, domain)
  {
    if h != [] {
      var n := |h| - 1;
      RightUntilReload(h[..n], dir, domain);
      RightStays(h[..n], h[n], dir, domain);
      assert h == h[..n] + [h[n]];
    }
  }

  // How much of a history is in the store, as far as a domain is concerned: up to its last write that succeeded.
  function SavedUpTo(h: History, domain: string): (n: nat)
    ensures n <= |h|
  {
    if h == [] then 0
    else if About(h[|h| - 1], domain) && h[|h| - 1].write.Saved? then |h|
    else SavedUpTo(h[..|h| - 1], domain)
  }

  lemma {:induction false} StoreIsMemoryThen(h: History, domain: string)
    ensures Store(h, domain) == Memory(h[..SavedUpTo(h, domain)], domain)
  {
    if h != [] {
      var n := |h| - 1;
      StoreIsMemoryThen(h[..n], domain);
      if About(h[n], domain) && h[n].write.Saved? {
        assert h[..|h|] == h;
      } else {
        assert h[..n][..SavedUpTo(h, domain)] == h[..SavedUpTo(h, domain)];
      }
    }
  }

  // After a reload the answers are right if and only if the level at the last successful write is still the floor.
  lemma {:induction false} RightAfterReload(h: History, dir: Direction, domain: string)
    ensures Right(h + [Reloaded], dir, domain) <==>
      LevelOf(Memory(h[..SavedUpTo(h, domain)], domain), dir) == Floor(h, dir, domain)
  {
    Snoc(h, Reloaded, domain);
    assert (h + [Reloaded])[..|h|] == h;
    StoreIsMemoryThen(h, domain);
    RightMeaning(h + [Reloaded], dir, domain);
  }

  // For the first reload that is: no level was allowed or cleared since that write that changed the floor.
  lemma {:induction false} RightAfterFirstReload(h: History, dir: Direction, domain: string)
    requires Faithful(h) && Reloaded !in h
    ensures Right(h + [Reloaded], dir, domain) <==>
      Floor(h[..SavedUpTo(h, domain)], dir, domain) == Floor(h, dir, domain)
  {
    var n := SavedUpTo(h, domain);
    RightAfterReload(h, dir, domain);
    FaithfulPrefix(h, n);
    assert Reloaded !in h[..n];
    RightUntilReload(h[..n], dir, domain);
  }

  lemma {:induction false} FaithfulPrefix(h: History, n: nat)
    requires Faithful(h) && n <= |h|
    ensures Faithful(h[..n])
  {
    if n < |h| { FaithfulAt(h, n); } else { assert h[..n] == h; }
  }

  // No write of the domain failed.
  predicate AllSaved(h: History, domain: string) {
    forall k :: 0 <= k < |h| && About(h[k], domain) ==> !h[k].write.Unsaved?
  }

  // With successful writes, memory and store agree and the answers are right, however often the database is reloaded.
  lemma {:induction false} SavedIsRight(h: History, dir: Direction, domain: string)
    requires Faithful(h) && AllSaved(h, domain)
    ensures Store(h, domain) == Memory(h, domain)
    ensures LevelOf(Memory(h, domain), dir) == Floor(h, dir, domain)
  {
    if h != [] {
      var n := |h| - 1;
      var init, e := h[..n], h[n];
      assert AllSaved(init, domain) by { assert forall k :: 0 <= k < n ==> init[k] == h[k]; }
      SavedIsRight(init, dir, domain);
      assert h == init + [e];
      Snoc(init, e, domain);
      if !e.Reloaded? { RightStays(init, e, dir, domain); }
    }
  }

  // No downgrade: the level is no lower than the one in memory. If the answers are right, and they are if the writes of
  // the domain succeeded, it is no lower than every level allowed for the domain since it was last cleared.
  ghost predicate NotLower(h: History, dir: Direction, domain: string, level: nat) {
    && level >= LevelOf(Memory(h, domain), dir)
    && (AllSaved(h, domain) ==> Right(h, dir, domain))
    && (Right(h, dir, domain) ==> AtLeastAllowed(h, dir, domain, level))
  }

  ghost predicate AtLeastAllowed(h: History, dir: Direction, domain: string, level: nat) {
    forall k, l :: 0 <= k < |h| && AllowedAt(h, k, dir, domain, l) && SinceClear(h, domain, k) ==> level >= l
  }

  // An allowed level is no downgrade.
  lemma {:induction false} AllowedIsNotLower(h: History, k: nat)
    requires Faithful(h) && k < |h| && h[k].Asked? && h[k].allowed
    ensures NotLower(h[..k], h[k].dir, h[k].domain, h[k].level)
  {
    var past, dir, domain := h[..k], h[k].dir, h[k].domain;
    FaithfulAt(h, k);
    RightMeaning(past, dir, domain);
    if AllSaved(past, domain) { SavedIsRight(past, dir, domain); }
    FloorMeaning(past, dir, domain, h[k].level);
  }

  // ---------------------------------------------------------------- the database

  class DB {
    var info: Levels    // in memory
    var store: Levels   // on disk
    ghost var history: History

    ghost predicate Valid()
      reads this
    {
      && Faithful(history)
      && (forall d :: Lookup(info, d) == Memory(history, d) && Lookup(store, d) == Store(history, d))
    }

    // A new database over an empty directory.
    constructor ()
      ensures Valid() && info == store == map[] && history == []
    {
      info, store, history := map[], map[], [];
    }

    // db.write
    method Write(domain: string, d: Domain, ok: bool) returns (write: Write)
      modifies this`store
      ensures write == (if ok then Saved else Unsaved)
      ensures store == (if ok then old(store)[domain := d] else old(store))
    {
      if ok {
        store := store[domain := d];
        return Saved;
      }
      return Unsaved;
    }

    // IncomingSecLevel and OutgoingSecLevel: whether the level is at least the one in memory; the result is remembered,
    // and written if the domain is new or its level was raised.
    method SecLevel(dir: Direction, domain: string, level: nat, writeOk: bool) returns (allowed: bool,
        ghost write: Write)
      requires Valid()
      modifies this
      ensures Valid() && history == old(history) + [Asked(dir, domain, level, allowed, write)]
      ensures !write.NoWrite? ==> (write.Saved? <==> writeOk)
      ensures allowed <==> level >= LevelOf(Lookup(old(info), domain), dir)
      ensures Right(old(history), dir, domain) ==> (allowed <==> level >= Floor(old(history), dir, domain))
      ensures forall d :: d != domain ==> Lookup(info, d) == Lookup(old(info), d) && Lookup(store, d) == Lookup(old(store), d)
    {
      var known := domain in info;
      var d := if known then info[domain] else NEW;
      var raised := false;
      ghost var h := history;
      assert Lookup(info, domain) == Memory(h, domain);
      allowed := level >= d.Level(dir);
      assert Right(h, dir, domain) ==> RightFor(h, dir, domain, level);
      if level > d.Level(dir) {
        d := d.Raised(dir, level);
        raised := true;
      }
      info := info[domain := d];
      write := NoWrite;
      if !known || raised {
        write := Write(domain, d, writeOk);
      }
      ghost var e := Asked(dir, domain, level, allowed, write);
      forall name { Snoc(h, e, name); }
      FaithfulSnoc(h, e);
      history := h + [e];
    }

    // Clear sets both levels of a known domain to plain, and touches no other.
    method Clear(domain: string, writeOk: bool) returns (known: bool)
      requires Valid()
      modifies this
      ensures Valid() && (known <==> domain in old(info))
      ensures !known ==> history == old(history) && info == old(info) && store == old(store)
      ensures known ==> history == old(history) + [Cleared(domain, if writeOk then Saved else Unsaved)]
      ensures known ==> info == old(info)[domain := NEW]
      ensures known ==> store == if writeOk then old(store)[domain := NEW] else old(store)
    {
      if domain !in info {
        return false;
      }
      ghost var h := history;
      assert Lookup(info, domain) == Memory(h, domain);
      info := info[domain := NEW];
      var write := Write(domain, NEW, writeOk);
      ghost var e := Cleared(domain, write);
      forall name { Snoc(h, e, name); }
      FaithfulSnoc(h, e);
      history := h + [e];
      return true;
    }

    // Reload, and a restart: the levels are read back from the store.
    method Reload()
      requires Valid()
      modifies this
      ensures Valid() && info == store == old(store) && history == old(history) + [Reloaded]
    {
      ghost var h := history;
      info := store;
      forall name { Snoc(h, Reloaded, name); }
      FaithfulSnoc(h, Reloaded);
      history := h + [Reloaded];
    }
  }

  // ---------------------------------------------------------------- reloads that make the answers wrong

  // A failed write and a restart forget: after TLS was seen, plain text is accepted again.
  method ForgetsUnsavedLevel(domain: string) returns (first: bool, second: bool)
    ensures first && second
  {
    var db := new DB();
    ghost var write;
    first, write := db.SecLevel(Incoming, domain, TLS_CLIENT, false);
    Snoc([], Asked(Incoming, domain, TLS_CLIENT, true, write), domain);
    assert db.history == [] + [Asked(Incoming, domain, TLS_CLIENT, true, write)];
    db.Reload();
    assert Lookup(db.info, domain) == None;
    second, write := db.SecLevel(Incoming, domain, PLAIN, true);
  }

  // A clear whose write failed and a restart bring the level back: plain text is refused.
  method RevivesClearedLevel(domain: string) returns (first: bool, cleared: bool, second: bool)
    ensures first && cleared && !second
  {
    var db := new DB();
    ghost var write;
    first, write := db.SecLevel(Incoming, domain, TLS_CLIENT, true);
    cleared := db.Clear(domain, false);
    db.Reload();
    second, write := db.SecLevel(Incoming, domain, PLAIN, true);
  }
}
