/** The retry schedule of internal/queue/queue.go: nextDelay and the timing of SendLoop. Times are ages of the item, in
  * nanoseconds. How long each round of deliveries takes and the jitter of each delay are parameters.
  */
module Retry {

  const MINUTE := 60_000_000_000
  const HOUR := 60 * MINUTE

  // The delay without its jitter.
  function BaseDelay(age: int): int {
    if age < MINUTE then MINUTE
    else if age < 5 * MINUTE then 5 * MINUTE
    else if age < 10 * MINUTE then 10 * MINUTE
    else 20 * MINUTE
  }

  // The delay grows with the age, in steps at 1, 5 and 10 minutes.
  lemma {:induction false} BaseDelayMeaning(age: int, minutes: int)
    ensures BaseDelay(age) == minutes * MINUTE <==>
      || (minutes == 1 && age < MINUTE)
      || (minutes == 5 && MINUTE <= age < 5 * MINUTE)
      || (minutes == 10 && 5 * MINUTE <= age < 10 * MINUTE)
      || (minutes == 20 && 10 * MINUTE <= age)
  {}

  // nextDelay
  function NextDelay(age: int, jitter: int): int { BaseDelay(age) + jitter }

  // The earliest that round k can start: 0, 1, 6, 16, 36, 56... minutes.
  function Earliest(k: nat): int {
    if k == 0 then 0 else Earliest(k - 1) + BaseDelay(Earliest(k - 1))
  }

  // The longer a round ends after another, the later the next one starts.
  lemma {:induction false} NextStartMonotone(age: int, later: int)
    requires age <= later
    ensures age + BaseDelay(age) <= later + BaseDelay(later)
  {}

  lemma {:induction false} EarliestInMinutes(k: nat)
    ensures Earliest(0) == 0 && Earliest(1) == MINUTE && Earliest(2) == 6 * MINUTE
    ensures k >= 3 ==> Earliest(k) == (16 + 20 * (k - 3)) * MINUTE
  {
    assert Earliest(1) == MINUTE;
    assert Earliest(2) == 6 * MINUTE;
    if k > 3 {
      EarliestInMinutes(k - 1);
    }
  }

  // The loop runs a round at each age in `starts`.
  ghost predicate Schedule(starts: seq<int>, limit: int, duration: nat -> nat, jitter: nat -> nat) {
    && (forall i {:trigger starts[i]} :: 0 <= i < |starts| ==> Earliest(i) <= starts[i] < limit)
    && (forall i :: 0 <= i < |starts| - 1 ==> starts[i + 1] == NextStart(starts[i], duration(i), jitter(i)))
  }

  function NextStart(start: int, duration: nat, jitter: nat): int {
    start + duration + NextDelay(start + duration, jitter)
  }

  lemma {:induction false} ScheduleSnoc(starts: seq<int>, age: int, limit: int, duration: nat -> nat,
      jitter: nat -> nat)
    requires Schedule(starts, limit, duration, jitter) && Earliest(|starts|) <= age < limit
    requires starts != [] ==> var n := |starts| - 1; age == NextStart(starts[n], duration(n), jitter(n))
    ensures Schedule(starts + [age], limit, duration, jitter)
  {}

  // SendLoop: a round whenever the age is below the limit, until no recipient is pending.
  method SendLoop(age: nat, limit: int, duration: nat -> nat, jitter: nat -> nat, pending: nat -> bool)
    returns (starts: seq<int>, end: int)
    requires forall i :: jitter(i) < MINUTE
    ensures Schedule(starts, limit, duration, jitter)
    ensures starts == [] <==> age >= limit
    ensures starts == [] ==> end == age
    ensures starts != [] ==> starts[0] == age && end < limit + duration(|starts| - 1) + 21 * MINUTE
    ensures starts != [] ==> var n := |starts| - 1;
      end == if pending(n) then NextStart(starts[n], duration(n), jitter(n)) else starts[n] + duration(n)
    ensures forall i :: 0 <= i < |starts| - 1 ==> pending(i)
    ensures end >= limit || (starts != [] && !pending(|starts| - 1))
  {
    starts, end := [], age;
    while end < limit
      invariant Schedule(starts, limit, duration, jitter)
      invariant forall i :: 0 <= i < |starts| ==> pending(i)
      invariant starts == [] ==> end == age
      invariant starts != [] ==> starts[0] == age
      invariant starts != [] ==> var n := |starts| - 1; end == NextStart(starts[n], duration(n), jitter(n))
      invariant end >= Earliest(|starts|)
      decreases limit - end
    {
      var k := |starts|;
      NextStartMonotone(Earliest(k), end + duration(k));
      ScheduleSnoc(starts, end, limit, duration, jitter);
      starts := starts + [end];
      end := end + duration(k);
      if !pending(k) {
        return;
      }
      end := end + NextDelay(end, jitter(k));
    }
  }

  lemma {:induction false} WithinSchedule(starts: seq<int>, limit: int, duration: nat -> nat, jitter: nat -> nat,
      k: nat)
    requires Schedule(starts, limit, duration, jitter) && k < |starts|
    ensures Earliest(k) < limit
  {
    var start := starts[k];
  }

  // A round needs its earliest start to be within the limit.
  lemma {:induction false} RoundsForLimit(starts: seq<int>, limit: int, duration: nat -> nat, jitter: nat -> nat,
      k: nat)
    requires Schedule(starts, limit, duration, jitter) && limit <= Earliest(k)
    ensures |starts| <= k
  {
    if k < |starts| {
      WithinSchedule(starts, limit, duration, jitter, k);
    }
  }

  // With a limit of 20 hours there are at most 63 rounds, however short they are.
  lemma {:induction false} AtMost63Rounds(starts: seq<int>, duration: nat -> nat, jitter: nat -> nat)
    requires Schedule(starts, 20 * HOUR, duration, jitter)
    ensures |starts| <= 63
  {
    EarliestInMinutes(63);
    RoundsForLimit(starts, 20 * HOUR, duration, jitter, 63);
  }

  // That bound is reached: instant rounds without jitter make 63 of them.
  lemma {:induction false} SixtyThreeRoundsArePossible()
    ensures Schedule(seq(63, i requires 0 <= i => Earliest(i)), 20 * HOUR, _ => 0, _ => 0)
  {
    var starts := seq(63, i requires 0 <= i => Earliest(i));
    forall i | 0 <= i < 63 ensures starts[i] < 20 * HOUR {
      EarliestInMinutes(i);
      EarliestInMinutes(3);
      if i < 3 { EarliestGrows(i, 3); }
    }
  }

  lemma {:induction false} EarliestGrows(i: nat, k: nat)
    requires i <= k
    ensures Earliest(i) <= Earliest(k)
  {
    if i < k {
      EarliestGrows(i, k - 1);
    }
  }
}
