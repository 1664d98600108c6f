/** internal/nettrace/trace.go and evtring.go: the events a trace keeps, its first third in a list and the latest ones
  * in a ring. Times are integers; 0 is the zero time.
  */
module TraceBuffer {
  import opened Text

  datatype Event = Event(when: nat, isDrop: bool, msg: string)

  function Dropped(when: nat): Event { Event(when, true, "") }

  // ---------------------------------------------------------------- what should be kept

  function Latest(all: seq<Event>, max: nat): seq<Event> { if |all| <= max then all else all[|all| - max..] }

  // The time of the first event with one, or zero.
  function FirstTime(evts: seq<Event>): nat {
    if evts == [] then 0 else if evts[0].when != 0 then evts[0].when else FirstTime(evts[1..])
  }

  function Forgotten(all: seq<Event>, max: nat): seq<Event> { if |all| <= max then [] else all[..|all| - max] }

  function Marker(all: seq<Event>, max: nat): seq<Event> {
    if FirstTime(Forgotten(all, max)) == 0 then [] else [Dropped(FirstTime(Forgotten(all, max)))]
  }

  // What a trace with at most m events shows: the first third, a marker if something was dropped, the latest ones.
  function View(all: seq<Event>, m: nat): seq<Event> {
    var c := m / 3;
    if |all| <= c then all else all[..c] + Marker(all[c..], m - c) + Latest(all[c..], m - c)
  }

  function Inserted(s: seq<Event>, n: nat, e: Event): seq<Event>
    requires n <= |s|
  {
    s[..n] + [e] + s[n..]
  }

  // What a ring shows.
  function RingView(added: seq<Event>, max: nat): seq<Event> { Marker(added, max) + Latest(added, max) }

  // ---------------------------------------------------------------- the ring

  class Ring {
    var evts: seq<Event>
    var pos: int  // the latest element
    var firstDrop: nat
    const max: nat
    ghost var added: seq<Event>

    ghost predicate Valid()
      reads this
    {
      && Holds(evts, max, added)
      && pos == (if added == [] then -1 else Slot(|added| - 1, max))
      && firstDrop == FirstTime(Forgotten(added, max))
    }

    constructor (n: nat)
      requires n > 0
      ensures Valid() && max == n && added == []
    {
      evts, pos, firstDrop, max, added := [], -1, 0, n, [];
    }

    method Add(e: Event)
      requires Valid()
      modifies this
      ensures Valid() && added == old(added) + [e]
    {
      if |evts| < max {
        HoldsOneMore(evts, max, added, e);
        evts := evts + [e];
        pos := pos + 1;
        added := added + [e];
        return;
      }
      HoldsLatest(evts, max, added, e);
      pos := Modulo(pos + 1, max);
      if firstDrop == 0 {
        firstDrop := evts[pos].when;
      }
      evts := evts[pos := e];
      added := added + [e];
    }

    // Do, collecting the events it visits: from older to newer.
    method Do() returns (out: seq<Event>)
      requires Valid()
      ensures out == Latest(added, max)
    {
      out := [];
      var n := |evts|;
      ghost var kept := Latest(added, max);
      for i := 0 to n
        invariant out == kept[..i]
      {
        Oldest(evts, max, added, i);
        SliceSnoc(kept, i);
        var p := Modulo(pos + 1 + i, n);
        out := out + [evts[p]];
      }
    }
  }

  // The slots hold the latest events, each in its own slot.
  ghost predicate Holds(evts: seq<Event>, max: nat, added: seq<Event>) {
    && max > 0
    && |evts| == (if |added| < max then |added| else max)
    && (forall j {:trigger added[j]} :: |added| - |evts| <= j < |added| ==> evts[Slot(j, max)] == added[j])
  }

  lemma {:induction false} HoldsOneMore(evts: seq<Event>, max: nat, added: seq<Event>, e: Event)
    requires Holds(evts, max, added) && |evts| < max
    ensures Holds(evts + [e], max, added + [e]) && Forgotten(added + [e], max) == Forgotten(added, max)
  {}

  lemma {:induction false} HoldsLatest(evts: seq<Event>, max: nat, added: seq<Event>, e: Event)
    requires Holds(evts, max, added) && |evts| == max
    ensures var p, q := Slot(|added| - 1, max), Slot(|added|, max);
      && q == (if p + 1 < max then p + 1 else 0)
      && Holds(evts[q := e], max, added + [e])
      && FirstTime(Forgotten(added + [e], max)) ==
         var before := FirstTime(Forgotten(added, max)); if before != 0 then before else evts[q].when
  {
    var n := |added|;
    SlotAdd(n - 1, 1, max);
    SlotAdd(n - max, max, max);
    ForgetOne(added, e, max);
    forall j | n - max < j < n ensures Slot(j, max) != Slot(n, max) { SlotApart(j, n, max); }
  }

  // The i-th slot after the latest one, going round, holds the i-th oldest event.
  lemma {:induction false} Oldest(evts: seq<Event>, max: nat, added: seq<Event>, i: nat)
    requires Holds(evts, max, added) && i < |evts|
    ensures var a := Slot(|added| - 1, max) + 1 + i;
      a < 2 * |evts| && Latest(added, max)[i] == evts[if a < |evts| then a else a - |evts|]
  {
    var base := |added| - |evts|;
    OldestSlot(|added|, |evts|, max, i);
    assert Latest(added, max)[i] == added[base + i];
  }

  lemma {:induction false} OldestSlot(count: nat, n: nat, max: nat, i: nat)
    requires max > 0 && n == (if count < max then count else max) && i < n
    ensures var a := Slot(count - 1, max) + 1 + i;
      a < 2 * n && Slot(count - n + i, max) == if a < n then a else a - n
  {
    if count >= max {
      SlotAdd(count - 1, 1 + i, max);
      SlotAdd(count - n + i, max, max);
    }
  }

  // The slot of the j-th event: j modulo max.
  function Slot(j: nat, max: nat): (s: nat)
    requires max > 0
    ensures s < max
  {
    if j < max then j else Slot(j - max, max)
  }

  lemma {:induction false} SlotAdd(j: nat, i: nat, max: nat)
    requires 0 < max && i <= max
    ensures Slot(j + i, max) == if Slot(j, max) + i < max then Slot(j, max) + i else Slot(j, max) + i - max
  {
    if j >= max {
      SlotAdd(j - max, i, max);
    }
  }

  lemma {:induction false} SlotApart(j: nat, n: nat, max: nat)
    requires max > 0 && j < n < j + max
    ensures Slot(j, max) != Slot(n, max)
  {
    if j >= max {
      SlotApart(j - max, n - max, max);
    }
  }

  // The remainder of a position at most one turn past the end.
  method Modulo(a: nat, n: nat) returns (r: nat)
    requires n > 0 && a < 2 * n
    ensures r == if a < n then a else a - n
  {
    assert a >= n ==> a / n == 1;
    r := a % n;
  }

  lemma {:induction false} ForgetOne(all: seq<Event>, e: Event, max: nat)
    requires 0 < max <= |all|
    ensures FirstTime(Forgotten(all + [e], max)) ==
      var before := FirstTime(Forgotten(all, max)); if before != 0 then before else all[|all| - max].when
  {
    assert Forgotten(all + [e], max) == Forgotten(all, max) + [all[|all| - max]];
    FirstTimeSnoc(Forgotten(all, max), all[|all| - max]);
  }

  lemma {:induction false} FirstTimeSnoc(evts: seq<Event>, e: Event)
    ensures FirstTime(evts + [e]) == if FirstTime(evts) != 0 then FirstTime(evts) else e.when
  {
    if evts != [] {
      assert (evts + [e])[1..] == evts[1..] + [e];
      FirstTimeSnoc(evts[1..], e);
    }
  }

  // ---------------------------------------------------------------- the trace

  const DEFAULT_MAX_EVENTS := 30
  const LEAST_MAX_EVENTS := 6

  class Trace {
    var maxEvents: nat
    var cutoff: nat
    var firstEvents: seq<Event>
    var lastEvents: Ring?
    ghost var all: seq<Event>  // every event appended

    ghost predicate Valid()
      reads this, lastEvents
    {
      && maxEvents >= LEAST_MAX_EVENTS && cutoff == maxEvents / 3
      && (lastEvents != null ==> lastEvents.Valid() && lastEvents.added != [])
    }

    // What was added to the ring.
    ghost function Rest(): seq<Event>
      reads this, lastEvents
    {
      if lastEvents == null then [] else lastEvents.added
    }

    // What Events returns.
    ghost function Shown(): seq<Event>
      reads this, lastEvents
    {
      ShownWith(firstEvents, lastEvents)
    }

    // The head and the ring hold what they should for the current maximum. It is so from the start, and it stays so
    // as long as the maximum does not change.
    ghost predicate Regular()
      reads this, lastEvents
    {
      && all == firstEvents + Rest() && |firstEvents| <= cutoff
      && (lastEvents != null ==> |firstEvents| == cutoff && lastEvents.max == maxEvents - cutoff)
    }

    // A new event will be shown last: there is no ring yet, or the head is full.
    predicate InOrder()
      reads this
    {
      lastEvents == null || |firstEvents| >= cutoff
    }

    constructor ()
      ensures Valid() && Regular() && maxEvents == DEFAULT_MAX_EVENTS && all == [] && lastEvents == null
    {
      maxEvents, cutoff := DEFAULT_MAX_EVENTS, DEFAULT_MAX_EVENTS / 3;
      firstEvents, lastEvents, all := [], null, [];
    }

    // append
    method Append(e: Event)
      requires Valid()
      modifies this, lastEvents
      ensures Valid() && maxEvents == old(maxEvents) && all == old(all) + [e]
      ensures lastEvents == old(lastEvents) || fresh(lastEvents)
      ensures old(Regular()) ==> Regular()
      ensures |old(firstEvents)| < cutoff ==> firstEvents == old(firstEvents) + [e] && Rest() == old(Rest())
      ensures |old(firstEvents)| >= cutoff ==> firstEvents == old(firstEvents) && Rest() == old(Rest()) + [e]
      // The event is shown last, unless the ring has been started and there is room in the head: then it is shown
      // before all that the ring holds.
      ensures Shown() != []
      ensures old(InOrder()) ==> Shown()[|Shown()| - 1] == e
      ensures !old(InOrder()) ==> |old(firstEvents)| < |old(Shown())| && Shown() == Inserted(old(Shown()), |old(firstEvents)|, e)
      ensures e !in old(Shown()) ==> (Shown()[|Shown()| - 1] == e <==> old(InOrder()))
    {
      if |firstEvents| < cutoff {
        AppendToHead(e);
      } else {
        AppendToRing(e);
      }
    }

    method AppendToHead(e: Event)
      requires Valid() && |firstEvents| < cutoff
      modifies this
      ensures Valid() && maxEvents == old(maxEvents) && all == old(all) + [e] && lastEvents == old(lastEvents)
      ensures firstEvents == old(firstEvents) + [e] && Rest() == old(Rest()) && (old(Regular()) ==> Regular())
      ensures Shown() != [] && |old(firstEvents)| <= |old(Shown())|
      ensures lastEvents == null ==> Shown()[|Shown()| - 1] == e
      ensures lastEvents != null ==> |old(firstEvents)| < |old(Shown())| && Shown() == Inserted(old(Shown()), |old(firstEvents)|, e)
      ensures lastEvents != null && e !in old(Shown()) ==> Shown()[|Shown()| - 1] != e
    {
      ShownInHead(firstEvents, lastEvents, e);
      all := all + [e];
      firstEvents := firstEvents + [e];
    }

    method AppendToRing(e: Event)
      requires Valid() && |firstEvents| >= cutoff
      modifies this, lastEvents
      ensures Valid() && maxEvents == old(maxEvents) && all == old(all) + [e] && firstEvents == old(firstEvents)
      ensures lastEvents != null && (lastEvents == old(lastEvents) || (old(lastEvents) == null && fresh(lastEvents)))
      ensures Rest() == old(Rest()) + [e] && (old(Regular()) ==> Regular())
      ensures old(lastEvents) == null ==> lastEvents.max == maxEvents - cutoff
      ensures Shown() != [] && Shown()[|Shown()| - 1] == e
    {
      Assoc(firstEvents, Rest(), [e]);
      all := all + [e];
      if lastEvents == null {
        lastEvents := new Ring(maxEvents - cutoff);
      }
      lastEvents.Add(e);
      RingShowsLast(firstEvents, lastEvents.added, lastEvents.max);
    }

    // SetMaxEvents keeps what was recorded. A trace stays regular exactly if it fits in the new head, or if it has
    // started its ring and the maximum does not change.
    method SetMaxEvents(n: int)
      requires Valid()
      modifies this`maxEvents, this`cutoff
      ensures Valid() && maxEvents == (if n < 6 then 6 else n)
      ensures old(Regular()) ==>
        (Regular() <==> if lastEvents == null then |all| <= cutoff else maxEvents == old(maxEvents))
    {
      maxEvents := if n < LEAST_MAX_EVENTS then LEAST_MAX_EVENTS else n;
      cutoff := maxEvents / 3;
    }

    // Events
    method Events() returns (evts: seq<Event>)
      requires Valid()
      ensures evts == Shown() && (Regular() ==> evts == View(all, maxEvents))
    {
      evts := firstEvents;
      if lastEvents == null {
        return;
      }
      if Regular() { Divided(firstEvents, lastEvents.added); }
      if lastEvents.firstDrop != 0 {
        evts := evts + [Dropped(lastEvents.firstDrop)];
      }
      assert evts == firstEvents + Marker(lastEvents.added, lastEvents.max);
      var rest := lastEvents.Do();
      Assoc(firstEvents, Marker(lastEvents.added, lastEvents.max), rest);
      evts := evts + rest;
    }
  }

  lemma {:induction false} Divided(a: seq<Event>, b: seq<Event>)
    ensures (a + b)[..|a|] == a && (a + b)[|a|..] == b
  {}

  ghost function ShownWith(first: seq<Event>, ring: Ring?): seq<Event>
    reads ring
  {
    if ring == null then first else first + RingView(ring.added, ring.max)
  }

  // An event added to the head is last exactly if there is no ring.
  lemma {:induction false} ShownInHead(first: seq<Event>, ring: Ring?, e: Event)
    requires ring != null ==> ring.Valid() && ring.added != []
    ensures var before, after := ShownWith(first, ring), ShownWith(first + [e], ring);
      && after != [] && |first| <= |before|
      && (ring == null ==> after[|after| - 1] == e)
      && (ring != null ==> |first| < |before| && after == Inserted(before, |first|, e))
      && (ring != null && e !in before ==> after[|after| - 1] != e)
  {
    if ring != null {
      var v := RingView(ring.added, ring.max);
      RingShowsLast(first, ring.added, ring.max);
      InsertedInHead(first, v, e);
    }
  }

  lemma {:induction false} InsertedInHead(first: seq<Event>, ring: seq<Event>, e: Event)
    requires ring != []
    ensures first + [e] + ring == Inserted(first + ring, |first|, e)
    ensures var after := first + [e] + ring; after[|after| - 1] == ring[|ring| - 1] && ring[|ring| - 1] in first + ring
  {}

  lemma {:induction false} RingShowsLast(first: seq<Event>, added: seq<Event>, max: nat)
    requires added != [] && max > 0
    ensures RingView(added, max) != []
    ensures var v := first + RingView(added, max); v != [] && v[|v| - 1] == added[|added| - 1]
  {}

  // How much is shown: the head, the marker if something with a time was dropped, and what the ring holds.
  lemma {:induction false} ShownSize(t: Trace)
    requires t.Valid()
    ensures t.lastEvents == null ==> |t.Shown()| == |t.firstEvents|
    ensures t.lastEvents != null ==>
      var added, max := t.lastEvents.added, t.lastEvents.max;
      && |t.Shown()| == |t.firstEvents| + |Marker(added, max)| + (if |added| < max then |added| else max)
      && |t.Shown()| <= |t.firstEvents| + 1 + max
      && (t.lastEvents.firstDrop != 0 ==>
            (|t.Shown()| <= t.maxEvents + 1 <==> |t.firstEvents| + max <= t.maxEvents))
  {
    if t.lastEvents != null { ForgetsWhenFull(t.lastEvents.added, t.lastEvents.max); }
  }

  lemma {:induction false} ForgetsWhenFull(added: seq<Event>, max: nat)
    ensures FirstTime(Forgotten(added, max)) != 0 ==> |added| > max
  {}

  // Raising the maximum of a trace that has started its ring puts later events before earlier ones.
  method RaisedMaximumReorders(a: Event, b: Event, c: Event, d: Event) returns (evts: seq<Event>)
    ensures evts == [a, b, d, c]
  {
    var t := StartedRing(a, b, c);
    t.SetMaxEvents(9);
    OneInRing([a, b], c, d);
    t.Append(d);
    evts := t.Events();
  }

  method StartedRing(a: Event, b: Event, c: Event) returns (t: Trace)
    ensures fresh(t) && t.Valid() && t.firstEvents == [a, b]
    ensures t.lastEvents != null && fresh(t.lastEvents) && t.Rest() == [c] && t.lastEvents.max == 4
  {
    t := FullHead(a, b);
    t.AppendToRing(c);
  }

  lemma {:induction false} OneInRing(head: seq<Event>, c: Event, d: Event)
    requires |head| == 2
    ensures head + [d] + RingView([c], 4) == [head[0], head[1], d, c]
  {
    assert Latest([c], 4) == [c] && Marker([c], 4) == [];
  }

  method FullHead(a: Event, b: Event) returns (t: Trace)
    ensures fresh(t) && t.Valid() && t.maxEvents == 6 && t.firstEvents == [a, b] && t.lastEvents == null
  {
    t := new Trace();
    t.SetMaxEvents(6);
    t.AppendToHead(a);
    t.AppendToHead(b);
  }

  // Lowering it shows what was recorded all the same: ten events at a maximum of six.
  method LoweredMaximumShowsMore(es: seq<Event>) returns (evts: seq<Event>, max: nat)
    requires |es| == 10
    ensures evts == es && max == 6
  {
    var t := new Trace();
    for i := 0 to |es|
      invariant t.Valid() && t.Regular() && t.maxEvents == 30 && t.all == es[..i]
      invariant fresh(t) && (t.lastEvents != null ==> fresh(t.lastEvents))
    {
      t.Append(es[i]);
    }
    assert es[..10] == es;
    t.SetMaxEvents(6);
    evts := t.Events();
    max := t.maxEvents;
  }

  // ---------------------------------------------------------------- the view

  ghost predicate Chronological(evts: seq<Event>) {
    forall i, j :: 0 <= i < j < |evts| ==> evts[i].when <= evts[j].when
  }

  // At most one event more than the maximum, whatever was appended.
  lemma {:induction false} ViewIsBounded(all: seq<Event>, m: nat)
    ensures |View(all, m)| <= m + 1
    ensures |all| <= m ==> View(all, m) == all
  {
    var c := m / 3;
    if c < |all| <= m {
      assert Latest(all[c..], m - c) == all[c..] && Forgotten(all[c..], m - c) == [];
      assert all == all[..c] + [] + all[c..];
    }
  }

  // With more than m events and real times: the first third, a marker with the time of the first event left out, and
  // the latest m - m / 3.
  lemma {:induction false} ViewWhenFull(all: seq<Event>, m: nat)
    requires |all| > m && all[m / 3].when != 0
    ensures View(all, m) == all[..m / 3] + [Dropped(all[m / 3].when)] + all[|all| - (m - m / 3)..]
  {
    var c := m / 3;
    assert Forgotten(all[c..], m - c)[0] == all[c];
    assert Latest(all[c..], m - c) == all[|all| - (m - c)..];
  }

  lemma {:induction false} FirstTimeWithin(evts: seq<Event>)
    requires FirstTime(evts) != 0
    ensures exists i :: 0 <= i < |evts| && evts[i].when == FirstTime(evts)
  {
    if evts[0].when == 0 {
      FirstTimeWithin(evts[1..]);
      var i :| 0 <= i < |evts[1..]| && evts[1..][i].when == FirstTime(evts[1..]);
      assert evts[i + 1].when == FirstTime(evts);
    } else {
      assert evts[0].when == FirstTime(evts);
    }
  }

  // Events appended in order of time are shown in order of time, the marker included.
  lemma {:induction false} ViewIsChronological(all: seq<Event>, m: nat)
    requires Chronological(all)
    ensures Chronological(View(all, m))
  {
    if |all| > m / 3 { TailIsChronological(all, m / 3, m - m / 3); }
  }

  lemma {:induction false} TailIsChronological(all: seq<Event>, c: nat, k: nat)
    requires Chronological(all) && c <= |all|
    ensures Chronological(all[..c] + Marker(all[c..], k) + Latest(all[c..], k))
  {
    var from := TailParts(all, c, k);
    if FirstTime(all[c..from]) != 0 {
      MarkerWithin(all, c, from);
    } else {
      Skipping(all, c, from);
    }
  }

  lemma {:induction false} TailParts(all: seq<Event>, c: nat, k: nat) returns (from: nat)
    requires c <= |all|
    ensures c <= from <= |all|
    ensures var t := FirstTime(all[c..from]);
      all[..c] + Marker(all[c..], k) + Latest(all[c..], k) ==
      if t == 0 then all[..c] + all[from..] else all[..c] + [Dropped(t)] + all[from..]
  {
    from := |all| - |Latest(all[c..], k)|;
    assert Latest(all[c..], k) == all[from..] && Forgotten(all[c..], k) == all[c..from];
    assert all[..c] + [] == all[..c];
  }

  lemma {:induction false} Skipping(all: seq<Event>, c: nat, from: nat)
    requires Chronological(all) && c <= from <= |all|
    ensures Chronological(all[..c] + all[from..])
  {}

  lemma {:induction false} MarkerWithin(all: seq<Event>, c: nat, from: nat)
    requires Chronological(all) && c <= from <= |all| && FirstTime(all[c..from]) != 0
    ensures Chronological(all[..c] + [Dropped(FirstTime(all[c..from]))] + all[from..])
  {
    FirstTimeWithin(all[c..from]);
    var i :| 0 <= i < from - c && all[c..from][i].when == FirstTime(all[c..from]);
    Between(all, c, c + i, from, Dropped(FirstTime(all[c..from])));
  }

  lemma {:induction false} Between(all: seq<Event>, c: nat, i: nat, from: nat, e: Event)
    requires Chronological(all) && c <= i < from <= |all| && e.when == all[i].when
    ensures Chronological(all[..c] + [e] + all[from..])
  {}
}
