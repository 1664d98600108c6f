/** internal/nettrace/http.go: gathering the events of a trace and of every trace its events refer to. Traces may refer
  * to each other in cycles.
  */
module AllEvents {
  import opened Text

  type Id = nat

  datatype Event = Event(when: int, reference: Option<Id>, msg: string)

  // The events of every trace.
  type Graph = map<Id, seq<Event>>

  // What an event refers to is a trace.
  ghost predicate Closed(g: Graph) {
    forall t, k :: t in g && 0 <= k < |g[t]| && g[t][k].reference.Some? ==> g[t][k].reference.value in g
  }

  datatype Entry = Entry(id: Id, event: Event, depth: nat)

  // ---------------------------------------------------------------- reachability

  ghost predicate Edge(g: Graph, a: Id, b: Id) {
    a in g && exists k :: 0 <= k < |g[a]| && g[a][k].reference == Some(b)
  }

  // There is a chain of n references from a to b.
  ghost predicate ReachesIn(g: Graph, a: Id, b: Id, n: nat)
    decreases n
  {
    if n == 0 then a == b else exists c :: ReachesIn(g, a, c, n - 1) && Edge(g, c, b)
  }

  ghost predicate Reachable(g: Graph, a: Id, b: Id) { exists n :: ReachesIn(g, a, b, n) }

  // A set that holds a and all that its members refer to holds all that a reaches.
  lemma {:induction false} ClosedSetHoldsAll(g: Graph, s: set<Id>, a: Id, b: Id, n: nat)
    requires a in s && ReachesIn(g, a, b, n)
    requires forall x, y :: x in s && Edge(g, x, y) ==> y in s
    ensures b in s
    decreases n
  {
    if n > 0 {
      var c :| ReachesIn(g, a, c, n - 1) && Edge(g, c, b);
      ClosedSetHoldsAll(g, s, a, c, n - 1);
    }
  }

  // ---------------------------------------------------------------- visits

  datatype Visit = Visit(id: Id, depth: nat)

  function EntriesOf(id: Id, evts: seq<Event>, depth: nat): seq<Entry> {
    seq(|evts|, i requires 0 <= i < |evts| => Entry(id, evts[i], depth))
  }

  // The events of the visited traces, in the order of the visits.
  function Listing(g: Graph, visits: seq<Visit>): seq<Entry> {
    if visits == [] then []
    else
      var v := visits[|visits| - 1];
      Listing(g, visits[..|visits| - 1]) + EntriesOf(v.id, if v.id in g then g[v.id] else [], v.depth)
  }

  function Ids(visits: seq<Visit>): set<Id> { set v | v in visits :: v.id }

  predicate OncePerTrace(visits: seq<Visit>) {
    forall i, j :: 0 <= i < j < |visits| ==> visits[i].id != visits[j].id
  }

  lemma {:induction false} ListingAppend(g: Graph, a: seq<Visit>, b: seq<Visit>)
    ensures Listing(g, a + b) == Listing(g, a) + Listing(g, b)
  {
    if b == [] {
      assert a + b == a;
    } else {
      var n := |b| - 1;
      assert (a + b)[..|a + b| - 1] == a + b[..n];
      ListingAppend(g, a, b[..n]);
    }
  }

  lemma {:induction false} IdsAppend(a: seq<Visit>, b: seq<Visit>)
    ensures Ids(a + b) == Ids(a) + Ids(b)
  {
    forall x | x in Ids(a + b) ensures x in Ids(a) + Ids(b) {
      var v :| v in a + b && v.id == x;
    }
    forall x | x in Ids(a) + Ids(b) ensures x in Ids(a + b) {
      if x in Ids(a) {
        var v :| v in a && v.id == x;
        assert v in a + b;
      } else {
        var v :| v in b && v.id == x;
        assert v in a + b;
      }
    }
  }

  // New visits of traces not seen before, each reached from the root by as many references as its depth says.
  ghost predicate Fresh(g: Graph, root: Id, seen: set<Id>, visits: seq<Visit>) {
    && OncePerTrace(visits)
    && (forall i :: 0 <= i < |visits| ==> FreshAt(g, root, seen, visits[i]))
  }

  ghost predicate FreshAt(g: Graph, root: Id, seen: set<Id>, v: Visit) {
    v.id !in seen && v.id in g && ReachesIn(g, root, v.id, v.depth)
  }

  lemma {:induction false} FreshAppend(g: Graph, root: Id, seen: set<Id>, a: seq<Visit>, b: seq<Visit>)
    requires Fresh(g, root, seen, a) && Fresh(g, root, seen + Ids(a), b)
    ensures Fresh(g, root, seen, a + b)
  {
    var s := a + b;
    forall i | 0 <= i < |s| ensures FreshAt(g, root, seen, s[i]) {
      if i < |a| {
        assert FreshAt(g, root, seen, a[i]);
      } else {
        assert FreshAt(g, root, seen + Ids(a), b[i - |a|]);
      }
    }
    forall i, j | 0 <= i < j < |s| ensures s[i].id != s[j].id {
      if i < |a| <= j {
        assert a[i] in a;
        assert FreshAt(g, root, seen + Ids(a), b[j - |a|]);
      } else if j >= |a| {
        assert b[i - |a|].id != b[j - |a|].id;
      }
    }
  }

  // ---------------------------------------------------------------- the gather

  // All that the traces in `these` refer to has been seen.
  ghost predicate Followed(g: Graph, these: set<Id>, seen: set<Id>) {
    forall x, y :: x in these && Edge(g, x, y) ==> y in seen
  }

  // The traces that the events refer to, in order.
  function References(evts: seq<Event>): seq<Id> {
    if evts == [] then []
    else
      var e := evts[|evts| - 1];
      References(evts[..|evts| - 1]) + if e.reference.Some? then [e.reference.value] else []
  }

  // The visits, depth first, and what has been seen after them.
  function Walk(g: Graph, tr: Id, seen: set<Id>, depth: nat): (r: (seq<Visit>, set<Id>))
    ensures seen <= r.1
    decreases g.Keys - seen, 1, 0
  {
    if tr in seen || tr !in g then ([], seen)
    else
      assert tr in g.Keys - seen && tr !in g.Keys - (seen + {tr});
      var rest := WalkAll(g, References(g[tr]), seen + {tr}, depth + 1);
      ([Visit(tr, depth)] + rest.0, rest.1)
  }

  function WalkAll(g: Graph, subs: seq<Id>, seen: set<Id>, depth: nat): (r: (seq<Visit>, set<Id>))
    ensures seen <= r.1
    decreases g.Keys - seen, 2, |subs|
  {
    if subs == [] then ([], seen)
    else
      var n := |subs| - 1;
      var init := WalkAll(g, subs[..n], seen, depth);
      assert g.Keys - init.1 <= g.Keys - seen;
      var last := Walk(g, subs[n], init.1, depth);
      (init.0 + last.0, last.1)
  }

  // Gathering the references while the events are copied.
  method SubTraces(id: Id, evts: seq<Event>, depth: nat) returns (entries: seq<Entry>, subs: seq<Id>)
    ensures entries == EntriesOf(id, evts, depth)
    ensures subs == References(evts)
    ensures forall t :: t in subs <==> exists k :: 0 <= k < |evts| && evts[k].reference == Some(t)
  {
    entries, subs := [], [];
    for i := 0 to |evts|
      invariant subs == References(evts[..i])
      invariant entries == EntriesOf(id, evts, depth)[..i]
      invariant forall t :: t in subs <==> exists k :: 0 <= k < i && evts[k].reference == Some(t)
    {
      assert evts[..i + 1][..i] == evts[..i];
      entries := entries + [Entry(id, evts[i], depth)];
      if evts[i].reference.Some? {
        subs := subs + [evts[i].reference.value];
      }
    }
    assert evts[..|evts|] == evts;
  }

  // The visits so far; all they refer to has been seen, but for what `tr` refers to.
  ghost predicate Gathered(
    g: Graph, root: Id, tr: Id, seen: set<Id>, evts: seq<Entry>, visits: seq<Visit>, seen': set<Id>, out: seq<Entry>)
  {
    && out == evts + Listing(g, visits)
    && seen' == seen + Ids(visits) && tr in seen'
    && Fresh(g, root, seen, visits)
    && Followed(g, Ids(visits) - {tr}, seen')
  }

  lemma {:induction false} GatherMore(
    g: Graph, root: Id, tr: Id, seen: set<Id>, evts: seq<Entry>, visits: seq<Visit>, seen': set<Id>, out: seq<Entry>,
    more: seq<Visit>, seen'': set<Id>, out': seq<Entry>)
    requires Gathered(g, root, tr, seen, evts, visits, seen', out)
    requires out' == out + Listing(g, more) && seen'' == seen' + Ids(more)
    requires Fresh(g, root, seen', more) && Followed(g, Ids(more), seen'')
    ensures Gathered(g, root, tr, seen, evts, visits + more, seen'', out')
  {
    Assoc(evts, Listing(g, visits), Listing(g, more));
    ListingAppend(g, visits, more);
    IdsAppend(visits, more);
    FreshAppend(g, root, seen, visits, more);
  }

  // appendAllEvents
  method AppendAllEvents(g: Graph, tr: Id, evts: seq<Entry>, seen: set<Id>, depth: nat, ghost root: Id)
    returns (out: seq<Entry>, seen': set<Id>, ghost visits: seq<Visit>)
    requires Closed(g) && tr in g && ReachesIn(g, root, tr, depth)
    ensures out == evts + Listing(g, visits)
    ensures seen' == seen + Ids(visits) && tr in seen'
    ensures Fresh(g, root, seen, visits)
    ensures Followed(g, Ids(visits), seen')
    ensures (visits, seen') == Walk(g, tr, seen, depth)
    decreases g.Keys - seen, 1
  {
    out, seen', visits := evts, seen, [];
    if tr in seen {
      return;
    }
    visits := [Visit(tr, depth)];
    seen' := seen + {tr};
    var entries, subs := SubTraces(tr, g[tr], depth);
    out := evts + entries;
    GatherFirst(g, root, tr, seen, evts, depth);
    assert tr in g.Keys - seen && tr !in g.Keys - seen';
    forall i | 0 <= i < |subs| ensures Edge(g, tr, subs[i]) { assert subs[i] in subs; }
    out, seen', visits := AppendEach(g, tr, subs, evts, seen, out, seen', depth, root, visits);
    FollowedAll(g, tr, subs, Ids(visits), seen');
  }

  // The loop over the traces that the events of `tr` refer to.
  method AppendEach(
    g: Graph, tr: Id, subs: seq<Id>, ghost evts: seq<Entry>, ghost before: set<Id>, entries: seq<Entry>, seen: set<Id>,
    depth: nat, ghost root: Id, ghost first: seq<Visit>)
    returns (out: seq<Entry>, seen': set<Id>, ghost visits: seq<Visit>)
    requires Closed(g) && tr in g && ReachesIn(g, root, tr, depth)
    requires forall i :: 0 <= i < |subs| ==> Edge(g, tr, subs[i])
    requires Gathered(g, root, tr, before, evts, first, seen, entries)
    ensures Gathered(g, root, tr, before, evts, visits, seen', out)
    ensures AllIn(subs, |subs|, seen')
    ensures (visits, seen') == (first + WalkAll(g, subs, seen, depth + 1).0, WalkAll(g, subs, seen, depth + 1).1)
    decreases g.Keys - seen, 2
  {
    out, seen', visits := entries, seen, first;
    WalkedNone(g, subs, seen, depth + 1, first);
    for i := 0 to |subs|
      invariant Gathered(g, root, tr, before, evts, visits, seen', out) && seen <= seen'
      invariant AllIn(subs, i, seen')
      invariant (visits, seen') == Walked(g, subs, i, seen, depth + 1, first)
    {
      WalkedMore(g, subs, i, seen, depth + 1, first);
      Descends(g, root, tr, subs[i], depth);
      ghost var more;
      ghost var sofar, known := out, seen';
      out, seen', more := AppendAllEvents(g, subs[i], out, seen', depth + 1, root);
      GatherMore(g, root, tr, before, evts, visits, known, sofar, more, seen', out);
      AllInMore(subs, i, known, seen');
      visits := visits + more;
    }
    assert subs[..|subs|] == subs;
  }

  function Walked(g: Graph, subs: seq<Id>, i: nat, seen: set<Id>, depth: nat, first: seq<Visit>): (seq<Visit>, set<Id>)
    requires i <= |subs|
  {
    (first + WalkAll(g, subs[..i], seen, depth).0, WalkAll(g, subs[..i], seen, depth).1)
  }

  lemma {:induction false} WalkedNone(g: Graph, subs: seq<Id>, seen: set<Id>, depth: nat, first: seq<Visit>)
    ensures Walked(g, subs, 0, seen, depth, first) == (first, seen)
  {
    assert subs[..0] == [] && first + [] == first;
  }

  lemma {:induction false} WalkedMore(g: Graph, subs: seq<Id>, i: nat, seen: set<Id>, depth: nat, first: seq<Visit>)
    requires i < |subs|
    ensures var (visits, seen') := Walked(g, subs, i, seen, depth, first);
      var (more, after) := Walk(g, subs[i], seen', depth);
      Walked(g, subs, i + 1, seen, depth, first) == (visits + more, after)
  {
    assert subs[..i + 1][..i] == subs[..i];
    var init := WalkAll(g, subs[..i], seen, depth);
    Assoc(first, init.0, Walk(g, subs[i], init.1, depth).0);
  }

  predicate AllIn(subs: seq<Id>, n: nat, seen: set<Id>)
    requires n <= |subs|
  {
    forall k :: 0 <= k < n ==> subs[k] in seen
  }

  lemma {:induction false} AllInMore(subs: seq<Id>, i: nat, known: set<Id>, seen: set<Id>)
    requires i < |subs| && AllIn(subs, i, known) && known <= seen && subs[i] in seen
    ensures AllIn(subs, i + 1, seen)
  {}

  lemma {:induction false} FollowedAll(g: Graph, tr: Id, subs: seq<Id>, these: set<Id>, seen: set<Id>)
    requires tr in g && Followed(g, these - {tr}, seen) && AllIn(subs, |subs|, seen)
    requires forall t :: t in subs <==> exists k :: 0 <= k < |g[tr]| && g[tr][k].reference == Some(t)
    ensures Followed(g, these, seen)
  {
    assert forall y :: Edge(g, tr, y) ==> y in subs;
  }

  lemma {:induction false} Descends(g: Graph, root: Id, tr: Id, sub: Id, depth: nat)
    requires Closed(g) && tr in g && ReachesIn(g, root, tr, depth)
    requires Edge(g, tr, sub)
    ensures sub in g && ReachesIn(g, root, sub, depth + 1)
  {
    assert ReachesIn(g, root, tr, depth) && Edge(g, tr, sub);
  }

  lemma {:induction false} GatherFirst(g: Graph, root: Id, tr: Id, seen: set<Id>, evts: seq<Entry>, depth: nat)
    requires tr in g && tr !in seen && ReachesIn(g, root, tr, depth)
    ensures Gathered(g, root, tr, seen, evts, [Visit(tr, depth)], seen + {tr}, evts + EntriesOf(tr, g[tr], depth))
  {
    OneVisit(g, tr, depth);
  }

  lemma {:induction false} OneVisit(g: Graph, tr: Id, depth: nat)
    requires tr in g
    ensures Listing(g, [Visit(tr, depth)]) == EntriesOf(tr, g[tr], depth) && Ids([Visit(tr, depth)]) == {tr}
  {
    assert [Visit(tr, depth)][..0] == [];
    assert Visit(tr, depth) in [Visit(tr, depth)];
  }

  // ---------------------------------------------------------------- sorting

  predicate Sorted(evts: seq<Entry>) {
    forall i, j :: 0 <= i < j < |evts| ==> evts[i].event.when <= evts[j].event.when
  }

  // sort.Slice by time: some ordered arrangement of the entries.
  method SortByTime(evts: seq<Entry>) returns (out: seq<Entry>)
    ensures Sorted(out) && multiset(out) == multiset(evts)
  {
    out := [];
    for i := 0 to |evts|
      invariant Sorted(out) && multiset(out) == multiset(evts[..i])
    {
      out := Insert(out, evts[i]);
      assert evts[..i + 1] == evts[..i] + [evts[i]];
    }
    assert evts[..|evts|] == evts;
  }

  method Insert(evts: seq<Entry>, e: Entry) returns (out: seq<Entry>)
    requires Sorted(evts)
    ensures Sorted(out) && multiset(out) == multiset(evts) + multiset{e}
  {
    var k := |evts|;
    while k > 0 && evts[k - 1].event.when > e.event.when
      invariant 0 <= k <= |evts|
      invariant forall j :: k <= j < |evts| ==> evts[j].event.when > e.event.when
    {
      k := k - 1;
    }
    InsertAt(evts, k, e);
    out := evts[..k] + [e] + evts[k..];
  }

  lemma {:induction false} InsertAt(evts: seq<Entry>, k: nat, e: Entry)
    requires Sorted(evts) && k <= |evts|
    requires k > 0 ==> evts[k - 1].event.when <= e.event.when
    requires forall j :: k <= j < |evts| ==> evts[j].event.when > e.event.when
    ensures Sorted(evts[..k] + [e] + evts[k..])
    ensures multiset(evts[..k] + [e] + evts[k..]) == multiset(evts) + multiset{e}
  {
    var out := evts[..k] + [e] + evts[k..];
    assert forall i :: 0 <= i < k ==> evts[i].event.when <= e.event.when;
    assert forall i :: 0 <= i < |out| ==> out[i] == if i < k then evts[i] else if i == k then e else evts[i - 1];
    InsertMultiset(evts, k, e);
  }

  lemma {:induction false} InsertMultiset(evts: seq<Entry>, k: nat, e: Entry)
    requires k <= |evts|
    ensures multiset(evts[..k] + [e] + evts[k..]) == multiset(evts) + multiset{e}
  {
    assert evts == evts[..k] + evts[k..];
  }

  // allEvents: in order of time, exactly the events of the traces that can be reached, those of each trace once, with a
  // depth at which the trace is reached. It ends on every graph.
  method All(g: Graph, tr: Id) returns (out: seq<Entry>, ghost visits: seq<Visit>)
    requires Closed(g) && tr in g
    ensures Sorted(out) && multiset(out) == multiset(Listing(g, visits))
    ensures visits == Walk(g, tr, {}, 0).0 && OncePerTrace(visits)
    ensures forall v :: v in visits ==> ReachesIn(g, tr, v.id, v.depth)
    ensures forall t :: Reachable(g, tr, t) <==> t in Ids(visits)
  {
    var evts, seen;
    evts, seen, visits := AppendAllEvents(g, tr, [], {}, 0, tr);
    out := SortByTime(evts);
    assert evts == Listing(g, visits);
    forall v | v in visits ensures ReachesIn(g, tr, v.id, v.depth) {
      var i :| 0 <= i < |visits| && visits[i] == v;
      assert FreshAt(g, tr, {}, visits[i]);
    }
    forall t ensures Reachable(g, tr, t) <==> t in Ids(visits) { VisitedIsReachable(g, tr, visits, seen, t); }
  }

  lemma {:induction false} VisitedIsReachable(g: Graph, tr: Id, visits: seq<Visit>, seen: set<Id>, t: Id)
    requires seen == Ids(visits) && tr in seen && Followed(g, seen, seen)
    requires forall v :: v in visits ==> ReachesIn(g, tr, v.id, v.depth)
    ensures Reachable(g, tr, t) <==> t in Ids(visits)
  {
    if Reachable(g, tr, t) {
      var n :| ReachesIn(g, tr, t, n);
      ClosedSetHoldsAll(g, seen, tr, t, n);
    }
    if t in Ids(visits) {
      var v :| v in visits && v.id == t;
      assert ReachesIn(g, tr, t, v.depth);
    }
  }
}
