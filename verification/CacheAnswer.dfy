/** One cached answer of the recursive resolver: its records, its shrinking minimum TTL and
    the time arithmetic that decides when it expires. Times are in nanosecond ticks. */
module CacheAnswer {
  import opened Dns

  const TICKS: int := 1_000_000_000
  const TWO_TO_32: int := 0x1_0000_0000

  datatype RRType = A | AAAA | NS | SOA | TKEY | OtherType(code: nat)

  datatype AnswerType = Data | NoData | NxDomain | Fail | Referral

  /** Arithmetic of the 32-bit unsigned TTL field. */
  function Wrap(x: int): (r: nat)
    ensures r < TWO_TO_32
    ensures 0 <= x < TWO_TO_32 ==> r == x
  {
    x % TWO_TO_32
  }

  lemma WrapAdd(x: int, y: int)
    ensures Wrap(Wrap(x) + y) == Wrap(x + y)
  {
  }

  // ---- The clock of an answer ----

  /** When the TTLs were last brought up to date, and the minimum TTL as of then. */
  datatype Clock = Clock(create: int, min: int)

  function Deadline(c: Clock): int {
    c.create + c.min
  }

  predicate ExpiredAt(c: Clock, now: int) {
    now - c.create > c.min
  }

  function Min(a: int, b: int): int {
    if a < b then a else b
  }

  /** update_ttls, as far as the clock is concerned. */
  function Tick(c: Clock, now: int): Clock {
    var diff := now - c.create;
    if diff < TICKS then c else Clock(now, c.min - Min(diff, c.min))
  }

  /** The whole seconds update_ttls takes off each record. */
  function Drop(c: Clock, now: int): (d: nat)
    requires c.min >= 0
  {
    var diff := now - c.create;
    if diff < TICKS then 0 else Min(diff, c.min) / TICKS
  }

  function RunTicks(c: Clock, nows: seq<int>): Clock
    decreases |nows|
  {
    if nows == [] then c else RunTicks(Tick(c, nows[0]), nows[1..])
  }

  /** One update moves the deadline exactly when it takes effect on an expired answer. */
  lemma TickMovesDeadline(c: Clock, now: int)
    ensures Deadline(Tick(c, now)) == Deadline(c) <==> !(ExpiredAt(c, now) && now - c.create >= TICKS)
    ensures ExpiredAt(c, now) && now - c.create >= TICKS ==> Tick(c, now) == Clock(now, 0)
  {
  }

  /** Over any updates before expiry the absolute deadline is constant. */
  lemma {:induction false} UpdatesKeepDeadline(c: Clock, nows: seq<int>)
    requires forall i :: 0 <= i < |nows| ==> nows[i] <= Deadline(c)
    ensures Deadline(RunTicks(c, nows)) == Deadline(c)
    decreases |nows|
  {
    if nows != [] {
      TickMovesDeadline(c, nows[0]);
      UpdatesKeepDeadline(Tick(c, nows[0]), nows[1..]);
    }
  }

  /** Whether before or after expiry, updates are invisible at any later time: the answer
      expires exactly as if its TTLs had never been brought up to date. */
  lemma {:induction false} UpdatesAreInvisibleLater(c: Clock, nows: seq<int>, t: int)
    requires forall i :: 0 <= i < |nows| ==> nows[i] < t
    ensures ExpiredAt(RunTicks(c, nows), t) == ExpiredAt(c, t)
    decreases |nows|
  {
    if nows != [] {
      TickMovesDeadline(c, nows[0]);
      UpdatesAreInvisibleLater(Tick(c, nows[0]), nows[1..], t);
    }
  }

  // ---- Drift of the record TTLs ----

  /** The TTL of a record that occurs `times` times among the answer's records. */
  function TickTtl(c: Clock, ttl: int, now: int, times: nat): nat
    requires c.min >= 0
  {
    Wrap(ttl - times * Drop(c, now))
  }

  function RunTtl(c: Clock, ttl: int, nows: seq<int>): int
    requires c.min >= 0
    decreases |nows|
  {
    if nows == [] then ttl
    else
      assert Tick(c, nows[0]).min >= 0;
      RunTtl(Tick(c, nows[0]), TickTtl(c, ttl, nows[0], 1), nows[1..])
  }

  /** A record whose TTL the clock does not overrun. */
  predicate InStep(c: Clock, ttl: int) {
    0 <= c.min <= ttl * TICKS && ttl < TWO_TO_32
  }

  lemma OneTick(c: Clock, ttl: int, now: int)
    requires InStep(c, ttl) && now <= Deadline(c)
    ensures var c', ttl' := Tick(c, now), TickTtl(c, ttl, now, 1);
            var E, F := c'.create - c.create, ttl - ttl';
            && InStep(c', ttl') && Deadline(c') == Deadline(c)
            && 0 <= F * TICKS <= E && (E > 0 ==> E < 2 * F * TICKS) && (E == 0 ==> F == 0)
  {
  }

  /** Over any run of updates before expiry whose effective time is E, a record's TTL
      falls by no more than E and by more than half of it, never grows or wraps, and stays
      at or above the minimum TTL. */
  lemma {:induction false} BoundedDrift(c: Clock, ttl: int, nows: seq<int>)
    requires InStep(c, ttl)
    requires forall i :: 0 <= i < |nows| ==> nows[i] <= Deadline(c)
    ensures var c', ttl' := RunTicks(c, nows), RunTtl(c, ttl, nows);
            var E, F := c'.create - c.create, ttl - ttl';
            && InStep(c', ttl') && 0 <= ttl' <= ttl
            && 0 <= F * TICKS <= E && (E > 0 ==> E < 2 * F * TICKS) && (E == 0 ==> F == 0)
    decreases |nows|
  {
    if nows != [] {
      OneTick(c, ttl, nows[0]);
      BoundedDrift(Tick(c, nows[0]), TickTtl(c, ttl, nows[0], 1), nows[1..]);
    }
  }

  /** An update in numbers: nothing happens within a second of the last one; otherwise the
      clock is set to the reading, and minimum and TTL lose the time that has passed, or the
      minimum that was left, the TTL in whole seconds. */
  lemma UpdateInNumbers(c: Clock, ttl: int, now: int, times: nat)
    requires c.min >= 0 && 0 <= ttl < TWO_TO_32
    ensures now - c.create < 1_000_000_000 ==> Tick(c, now) == c && TickTtl(c, ttl, now, times) == ttl
    ensures 1_000_000_000 <= now - c.create <= c.min ==> Tick(c, now) == Clock(now, c.min - (now - c.create))
    ensures now - c.create >= 1_000_000_000 && now - c.create > c.min ==> Tick(c, now) == Clock(now, 0)
    ensures times == 1 && c.min <= ttl * 1_000_000_000 && now - c.create >= 1_000_000_000 ==>
              TickTtl(c, ttl, now, times) ==
              ttl - (if now - c.create <= c.min then now - c.create else c.min) / 1_000_000_000
  {
    if now - c.create < 1_000_000_000 {
      assert times * 0 == 0;
    }
  }

  /** After an update the clock is less than a second behind the reading, whatever came
      before it. */
  lemma {:induction false} ClockIsCurrent(c: Clock, nows: seq<int>)
    requires nows != []
    ensures nows[|nows|-1] - RunTicks(c, nows).create < 1_000_000_000
    decreases |nows|
  {
    if |nows| > 1 {
      ClockIsCurrent(Tick(c, nows[0]), nows[1..]);
    } else {
      assert nows[1..] == [];
    }
  }

  /** The bound of BoundedDrift in time as it passes: between the last update before the
      run and the last one in it, the TTL falls by no more seconds than pass, and by at
      least half of them but for less than a second. */
  lemma DriftInElapsedTime(c: Clock, ttl: int, nows: seq<int>)
    requires InStep(c, ttl) && nows != []
    requires forall i :: 0 <= i < |nows| ==> nows[i] <= nows[|nows|-1] <= Deadline(c)
    ensures var elapsed, fallen := nows[|nows|-1] - c.create, ttl - RunTtl(c, ttl, nows);
            && elapsed < (2 * fallen + 1) * 1_000_000_000
            && (elapsed >= 0 ==> fallen * 1_000_000_000 <= elapsed)
  {
    BoundedDrift(c, ttl, nows);
    ClockIsCurrent(c, nows);
    if c.create <= nows[|nows|-1] {
      CreatedByRun(c, nows, nows[|nows|-1]);
    }
  }

  lemma {:induction false} CreatedByRun(c: Clock, nows: seq<int>, last: int)
    requires c.create <= last && forall i :: 0 <= i < |nows| ==> nows[i] <= last
    ensures RunTicks(c, nows).create <= last
    decreases |nows|
  {
    if nows != [] {
      CreatedByRun(Tick(c, nows[0]), nows[1..], last);
    }
  }

  /** The resolver can list one record object several times in an answer (it merges the
      additional records into the answer records). One update then hits it several times,
      and the bound holds if and only if no record is listed twice. */
  lemma DriftNeedsDistinctRecords(times: nat)
    requires times < 0x8000_0000
    ensures (forall c: Clock, ttl, now {:trigger TickTtl(c, ttl, now, times)} ::
               InStep(c, ttl) && c.create <= now <= Deadline(c) ==>
                 TickTtl(c, ttl, now, times) <= ttl && InStep(Tick(c, now), TickTtl(c, ttl, now, times)))
            <==> times <= 1
  {
    if times <= 1 {
      forall c: Clock, ttl, now {:trigger TickTtl(c, ttl, now, times)} |
        InStep(c, ttl) && c.create <= now <= Deadline(c)
        ensures TickTtl(c, ttl, now, times) <= ttl && InStep(Tick(c, now), TickTtl(c, ttl, now, times))
      {
        OneTick(c, ttl, now);
        if times == 0 {
          assert TickTtl(c, ttl, now, 0) == ttl;
        }
      }
    } else {
      var c, now := Clock(0, 2 * TICKS), 2 * TICKS;
      assert Drop(c, now) == 2;
      assert InStep(c, 2) && now <= Deadline(c);
      assert TickTtl(c, 2, now, times) == Wrap(2 - times * 2) == TWO_TO_32 + 2 - times * 2 > 2;
    }
  }

  // ---- Records shared by several answers ----

  /** An answer as one record sees it: its clock, and how often it lists the record. */
  datatype Listing = Listing(clock: Clock, times: nat)

  /** An update of answer `who` at clock reading `now`. */
  datatype Update = Update(who: nat, now: int)

  predicate Sensible(ls: seq<Listing>, us: seq<Update>) {
    && (forall i :: 0 <= i < |ls| ==> ls[i].clock.min >= 0)
    && (forall i :: 0 <= i < |us| ==> us[i].who < |ls|)
  }

  function AfterUpdate(ls: seq<Listing>, u: Update): (r: seq<Listing>)
    requires u.who < |ls|
    ensures |r| == |ls|
  {
    ls[u.who := ls[u.who].(clock := Tick(ls[u.who].clock, u.now))]
  }

  /** What one update takes off the record: its seconds, once per listing. */
  function UpdateDrop(ls: seq<Listing>, u: Update): nat
    requires u.who < |ls| && ls[u.who].clock.min >= 0
  {
    ls[u.who].times * Drop(ls[u.who].clock, u.now)
  }

  lemma SensibleStep(ls: seq<Listing>, us: seq<Update>)
    requires Sensible(ls, us) && us != []
    ensures Sensible(AfterUpdate(ls, us[0]), us[1..])
  {
  }

  function RunListings(ls: seq<Listing>, us: seq<Update>): (r: seq<Listing>)
    requires Sensible(ls, us)
    ensures |r| == |ls|
    decreases |us|
  {
    if us == [] then ls
    else
      SensibleStep(ls, us);
      RunListings(AfterUpdate(ls, us[0]), us[1..])
  }

  /** The record's TTL after a run of updates of the answers that share it. */
  function RunShared(ls: seq<Listing>, ttl: int, us: seq<Update>): int
    requires Sensible(ls, us)
    decreases |us|
  {
    if us == [] then ttl
    else
      SensibleStep(ls, us);
      var l := ls[us[0].who];
      RunShared(AfterUpdate(ls, us[0]), TickTtl(l.clock, ttl, us[0].now, l.times), us[1..])
  }

  /** The drops of all updates of all answers that list the record, added up. */
  function TotalDrop(ls: seq<Listing>, us: seq<Update>): nat
    requires Sensible(ls, us)
    decreases |us|
  {
    if us == [] then 0
    else
      SensibleStep(ls, us);
      UpdateDrop(ls, us[0]) + TotalDrop(AfterUpdate(ls, us[0]), us[1..])
  }

  /** Over any run of updates of any answers, the TTL of a record falls by the sum of the
      drops of every update of every answer that lists it, modulo 2^32. */
  lemma {:induction false} SharedTtlFalls(ls: seq<Listing>, ttl: int, us: seq<Update>)
    requires Sensible(ls, us) && 0 <= ttl < TWO_TO_32
    ensures RunShared(ls, ttl, us) == Wrap(ttl - TotalDrop(ls, us))
    decreases |us|
  {
    if us != [] {
      SensibleStep(ls, us);
      var l, d := ls[us[0].who], UpdateDrop(ls, us[0]);
      var ttl' := TickTtl(l.clock, ttl, us[0].now, l.times);
      SharedTtlFalls(AfterUpdate(ls, us[0]), ttl', us[1..]);
      WrapAdd(ttl - d, 0 - TotalDrop(AfterUpdate(ls, us[0]), us[1..]));
    }
  }

  function ListedTimes(times: seq<nat>): nat {
    if times == [] then 0 else times[0] + ListedTimes(times[1..])
  }

  function Listings(clocks: seq<Clock>, times: seq<nat>): (r: seq<Listing>)
    requires |clocks| == |times|
    ensures |r| == |times| && forall i :: 0 <= i < |r| ==> r[i] == Listing(clocks[i], times[i])
  {
    seq(|times|, i requires 0 <= i < |times| => Listing(clocks[i], times[i]))
  }

  /** A run before any of the answers expires, from answers that list the record in step. */
  predicate FairRun(ls: seq<Listing>, ttl: int, us: seq<Update>) {
    && Sensible(ls, us)
    && (forall i :: 0 <= i < |ls| && ls[i].times > 0 ==> InStep(ls[i].clock, ttl))
    && (forall i :: 0 <= i < |us| ==> us[i].now <= Deadline(ls[us[i].who].clock))
    && 0 <= ttl < TWO_TO_32
  }

  /** The bound of BoundedDrift between two states of a clock and a record's TTL. */
  predicate Drifted(c: Clock, ttl: int, c': Clock, ttl': int) {
    var E, F := c'.create - c.create, ttl - ttl';
    && InStep(c', ttl') && 0 <= F * TICKS <= E && (E > 0 ==> E < 2 * F * TICKS)
  }

  /** The record's TTL drifts within the bound for every answer that lists it. */
  predicate Drifts(ls: seq<Listing>, ttl: int, us: seq<Update>)
    requires Sensible(ls, us)
  {
    && RunShared(ls, ttl, us) <= ttl
    && forall i :: 0 <= i < |ls| && ls[i].times > 0 ==>
         Drifted(ls[i].clock, ttl, RunListings(ls, us)[i].clock, RunShared(ls, ttl, us))
  }

  lemma {:induction false} ListedAtMostOnce(times: seq<nat>, i: nat, j: nat)
    requires i < |times| && j < |times| && i != j
    ensures ListedTimes(times) >= times[i] + times[j]
  {
    if i == 0 {
      ListedOnce(times[1..], j - 1);
    } else if j == 0 {
      ListedOnce(times[1..], i - 1);
    } else {
      ListedAtMostOnce(times[1..], i - 1, j - 1);
    }
  }

  lemma {:induction false} ListedOnce(times: seq<nat>, i: nat)
    requires i < |times|
    ensures ListedTimes(times) >= times[i]
  {
    if i > 0 {
      ListedOnce(times[1..], i - 1);
    }
  }

  ghost predicate AtMostOneListing(ls: seq<Listing>) {
    && (forall i :: 0 <= i < |ls| ==> ls[i].times <= 1)
    && (forall i, j :: 0 <= i < j < |ls| ==> ls[i].times == 0 || ls[j].times == 0)
  }

  /** One update, for the answer updated: with at most one listing it stays in step. */
  lemma ListedStep(l: Listing, ttl: int, now: int)
    requires l.times <= 1 && l.clock.min >= 0 && now <= Deadline(l.clock) && 0 <= ttl < TWO_TO_32
    requires l.times > 0 ==> InStep(l.clock, ttl)
    ensures var c', ttl' := Tick(l.clock, now), TickTtl(l.clock, ttl, now, l.times);
            && 0 <= ttl' <= ttl && c'.min >= 0 && Deadline(c') == Deadline(l.clock)
            && (l.times == 0 ==> ttl' == ttl) && (l.times > 0 ==> Drifted(l.clock, ttl, c', ttl'))
  {
    if l.times == 1 {
      OneTick(l.clock, ttl, now);
    } else {
      assert 0 * Drop(l.clock, now) == 0;
    }
  }

  lemma StepDrifts(ls: seq<Listing>, ttl: int, u: Update)
    requires u.who < |ls| && AtMostOneListing(ls) && FairRun(ls, ttl, [u])
    ensures var l := ls[u.who];
            var ls', ttl' := AfterUpdate(ls, u), TickTtl(l.clock, ttl, u.now, l.times);
            && AtMostOneListing(ls') && 0 <= ttl' <= ttl
            && (forall i :: 0 <= i < |ls| ==> ls'[i].clock.min >= 0 && Deadline(ls'[i].clock) == Deadline(ls[i].clock))
            && forall i :: 0 <= i < |ls| && ls[i].times > 0 ==> Drifted(ls[i].clock, ttl, ls'[i].clock, ttl')
  {
    assert [u][0] == u;
    ListedStep(ls[u.who], ttl, u.now);
  }

  lemma FairStep(ls: seq<Listing>, ttl: int, us: seq<Update>)
    requires FairRun(ls, ttl, us) && us != [] && AtMostOneListing(ls)
    ensures var l := ls[us[0].who];
            var ls', ttl' := AfterUpdate(ls, us[0]), TickTtl(l.clock, ttl, us[0].now, l.times);
            && FairRun(ls', ttl', us[1..]) && AtMostOneListing(ls') && ttl' <= ttl
            && forall i :: 0 <= i < |ls| && ls[i].times > 0 ==> Drifted(ls[i].clock, ttl, ls'[i].clock, ttl')
  {
    assert FairRun(ls, ttl, [us[0]]);
    StepDrifts(ls, ttl, us[0]);
  }

  lemma DriftedOn(c0: Clock, ttl0: int, c1: Clock, ttl1: int, c2: Clock, ttl2: int)
    requires Drifted(c0, ttl0, c1, ttl1) && Drifted(c1, ttl1, c2, ttl2)
    ensures Drifted(c0, ttl0, c2, ttl2)
  {
  }

  /** A record listed at most once in all drifts as `BoundedDrift` says, whatever other
      answers are updated in between. */
  lemma {:induction false} LoneListingDrifts(ls: seq<Listing>, ttl: int, us: seq<Update>)
    requires FairRun(ls, ttl, us) && AtMostOneListing(ls)
    ensures Drifts(ls, ttl, us)
    decreases |us|
  {
    if us != [] {
      FairStep(ls, ttl, us);
      var l := ls[us[0].who];
      var ls', ttl' := AfterUpdate(ls, us[0]), TickTtl(l.clock, ttl, us[0].now, l.times);
      LoneListingDrifts(ls', ttl', us[1..]);
      forall i | 0 <= i < |ls| && ls[i].times > 0
        ensures Drifted(ls[i].clock, ttl, RunListings(ls, us)[i].clock, RunShared(ls, ttl, us))
      {
        assert ls'[i].times == ls[i].times;
        DriftedOn(ls[i].clock, ttl, ls'[i].clock, ttl', RunListings(ls, us)[i].clock, RunShared(ls, ttl, us));
      }
    }
  }

  /** One update of each answer from number k on. */
  function OneEach(k: nat, n: nat, now: int): seq<Update>
    requires k <= n
    decreases n - k
  {
    if k == n then [] else [Update(k, now)] + OneEach(k + 1, n, now)
  }

  lemma {:induction false} OneEachIs(k: nat, n: nat, now: int)
    requires k <= n
    ensures forall i :: 0 <= i < |OneEach(k, n, now)| ==>
              k <= OneEach(k, n, now)[i].who < n && OneEach(k, n, now)[i].now == now
    decreases n - k
  {
    if k < n {
      OneEachIs(k + 1, n, now);
    }
  }

  lemma {:induction false} OneEachDrops(ls: seq<Listing>, times: seq<nat>, k: nat)
    requires |ls| == |times| && k <= |ls|
    requires forall i :: 0 <= i < |ls| ==> ls[i].times == times[i] && ls[i].clock.min >= 0
    requires forall i :: k <= i < |ls| ==> ls[i].clock == Clock(0, 2 * TICKS)
    ensures Sensible(ls, OneEach(k, |ls|, 2 * TICKS))
    ensures TotalDrop(ls, OneEach(k, |ls|, 2 * TICKS)) == 2 * ListedTimes(times[k..])
    decreases |ls| - k
  {
    OneEachIs(k, |ls|, 2 * TICKS);
    if k < |ls| {
      var us := OneEach(k, |ls|, 2 * TICKS);
      OneEachDrops(AfterUpdate(ls, us[0]), times, k + 1);
      assert us[1..] == OneEach(k + 1, |ls|, 2 * TICKS);
      assert times[k..][1..] == times[k+1..];
      assert Drop(ls[k].clock, 2 * TICKS) == 2;
      assert UpdateDrop(ls, us[0]) == times[k] * 2;
    }
  }

  function SameClocks(n: nat, c: Clock): (r: seq<Clock>)
    ensures |r| == n && forall i :: 0 <= i < n ==> r[i] == c
  {
    seq(n, _ => c)
  }

  /** Answers that list a record of TTL 2 and expire after two seconds. */
  function TwoSeconds(times: seq<nat>): (ls: seq<Listing>)
    ensures |ls| == |times|
    ensures forall i :: 0 <= i < |ls| ==> ls[i] == Listing(Clock(0, 2 * TICKS), times[i])
  {
    Listings(SameClocks(|times|, Clock(0, 2 * TICKS)), times)
  }

  lemma OneEachIsFair(times: seq<nat>)
    ensures FairRun(TwoSeconds(times), 2, OneEach(0, |times|, 2 * TICKS))
  {
    OneEachIs(0, |times|, 2 * TICKS);
  }

  /** With two listings or more, one update of each answer at the same moment already takes
      a record's TTL below zero, and it wraps. */
  lemma SharedTtlWraps(times: seq<nat>)
    requires 2 <= ListedTimes(times) < 0x8000_0000
    ensures FairRun(TwoSeconds(times), 2, OneEach(0, |times|, 2 * TICKS))
    ensures RunShared(TwoSeconds(times), 2, OneEach(0, |times|, 2 * TICKS)) == TWO_TO_32 + 2 - 2 * ListedTimes(times)
  {
    OneEachIsFair(times);
    OneEachDrops(TwoSeconds(times), times, 0);
    assert times[0..] == times;
    RunWraps(TwoSeconds(times), OneEach(0, |times|, 2 * TICKS), ListedTimes(times));
  }

  lemma RunWraps(ls: seq<Listing>, us: seq<Update>, n: nat)
    requires Sensible(ls, us) && TotalDrop(ls, us) == 2 * n && 2 <= n < 0x8000_0000
    ensures RunShared(ls, 2, us) == TWO_TO_32 + 2 - 2 * n
  {
    SharedTtlFalls(ls, 2, us);
    WrapBelowZero(2 - 2 * n);
  }

  lemma WrapBelowZero(x: int)
    requires -TWO_TO_32 <= x < 0
    ensures Wrap(x) == TWO_TO_32 + x
  {
  }

  lemma OneListingAtMost(clocks: seq<Clock>, times: seq<nat>)
    requires |clocks| == |times| && ListedTimes(times) <= 1
    ensures AtMostOneListing(Listings(clocks, times))
  {
    forall i, j | 0 <= i < |times| && 0 <= j < |times|
      ensures times[i] <= 1 && (i != j ==> times[i] == 0 || times[j] == 0)
    {
      ListedOnce(times, i);
      if i != j {
        ListedAtMostOnce(times, i, j);
      }
    }
  }

  /** Answers share record objects: the resolver copies answers and caches the copies too,
      and merges additional records into the answer records. The drift bound holds for every
      run of updates of such answers if and only if they list the record at most once in
      all. */
  lemma SharedDriftNeedsOneListing(times: seq<nat>)
    requires ListedTimes(times) < 0x8000_0000
    ensures (forall clocks: seq<Clock>, ttl: int, us: seq<Update> ::
               |clocks| == |times| && FairRun(Listings(clocks, times), ttl, us) ==>
                 Drifts(Listings(clocks, times), ttl, us))
            <==> ListedTimes(times) <= 1
  {
    if ListedTimes(times) <= 1 {
      forall clocks: seq<Clock>, ttl: int, us: seq<Update> |
        |clocks| == |times| && FairRun(Listings(clocks, times), ttl, us)
        ensures Drifts(Listings(clocks, times), ttl, us)
      {
        OneListingAtMost(clocks, times);
        LoneListingDrifts(Listings(clocks, times), ttl, us);
      }
    } else {
      SharedTtlWraps(times);
      var clocks := SameClocks(|times|, Clock(0, 2 * TICKS));
      assert TwoSeconds(times) == Listings(clocks, times);
      assert !Drifts(Listings(clocks, times), 2, OneEach(0, |times|, 2 * TICKS));
    }
  }

  // ---- The initial minimum TTL ----

  /** What update_min_ttl looks at in a record. */
  datatype RRView = RRView(rtype: RRType, ttl: int, minimum: int)

  function LimitTtl(rr: RRView): int {
    if rr.rtype == SOA then Min(rr.ttl, rr.minimum) else rr.ttl
  }

  /** One record: the comparison looks at the limit but the record's TTL is stored. */
  function StepMin(m: int, rr: RRView): int {
    if LimitTtl(rr) * TICKS < m then rr.ttl * TICKS else m
  }

  function FoldMin(minSet: bool, m: int, rrs: seq<RRView>): (bool, int)
    decreases |rrs|
  {
    if rrs == [] then (minSet, m)
    else
      var m' := if minSet then m else rrs[0].ttl * TICKS;
      FoldMin(true, StepMin(m', rrs[0]), rrs[1..])
  }

  function InitialMin(defaultTtl: int, answers: seq<RRView>, additional: seq<RRView>): int {
    var r := FoldMin(false, defaultTtl * TICKS, answers);
    FoldMin(r.0, r.1, additional).1
  }

  /** The quirk of the SOA branch: the running minimum grows exactly when an SOA record's
      `minimum` undercuts it while the record's own TTL lies above it. */
  lemma SoaRaisesMinimum(m: int, rr: RRView)
    ensures StepMin(m, rr) > m <==>
            rr.rtype == SOA && rr.minimum * TICKS < m < rr.ttl * TICKS
  {
  }

  /** The running minimum before record k, from `m`. */
  function Running(m: int, rrs: seq<RRView>, k: nat): int
    requires k <= |rrs|
  {
    if k == 0 then m else StepMin(Running(m, rrs, k - 1), rrs[k-1])
  }

  lemma {:induction false} RunningFrom(m: int, rrs: seq<RRView>, k: nat)
    requires k < |rrs|
    ensures Running(m, rrs, k + 1) == Running(StepMin(m, rrs[0]), rrs[1..], k)
  {
    if k > 0 {
      RunningFrom(m, rrs, k - 1);
    }
  }

  lemma {:induction false} FoldMinRuns(m: int, rrs: seq<RRView>)
    ensures FoldMin(true, m, rrs) == (true, Running(m, rrs, |rrs|))
    decreases |rrs|
  {
    if rrs != [] {
      FoldMinRuns(StepMin(m, rrs[0]), rrs[1..]);
      RunningFrom(m, rrs, |rrs| - 1);
    }
  }

  lemma {:induction false} FoldMinConcat(minSet: bool, m: int, a: seq<RRView>, b: seq<RRView>)
    ensures var r := FoldMin(minSet, m, a); FoldMin(r.0, r.1, b) == FoldMin(minSet, m, a + b)
    decreases |a|
  {
    if a == [] {
      assert a + b == b;
    } else {
      assert (a + b)[0] == a[0] && (a + b)[1..] == a[1..] + b;
      FoldMinConcat(true, StepMin(if minSet then m else a[0].ttl * TICKS, a[0]), a[1..], b);
    }
  }

  /** The constructor's minimum is the running minimum after all records, from the first one's TTL. */
  lemma InitialMinRuns(defaultTtl: int, answers: seq<RRView>, additional: seq<RRView>)
    ensures var all := answers + additional;
            InitialMin(defaultTtl, answers, additional) ==
            if all == [] then defaultTtl * TICKS else Running(all[0].ttl * TICKS, all, |all|)
  {
    var all := answers + additional;
    FoldMinConcat(false, defaultTtl * TICKS, answers, additional);
    if all != [] {
      FoldMinRuns(all[0].ttl * TICKS, all);
      assert FoldMin(false, defaultTtl * TICKS, all) == FoldMin(true, all[0].ttl * TICKS, all);
    }
  }

  /** Record k is an SOA record that makes the running minimum grow. */
  predicate Raises(rrs: seq<RRView>, k: nat)
    requires k < |rrs|
  {
    rrs[k].rtype == SOA && rrs[k].minimum * TICKS < Running(rrs[0].ttl * TICKS, rrs, k) < rrs[k].ttl * TICKS
  }

  /** The last growth of the minimum comes after record i, and leaves it above that record's
      TTL, as do the records that follow. */
  ghost predicate Overtaken(rrs: seq<RRView>, i: nat)
    requires i < |rrs|
  {
    exists k :: i < k < |rrs| && Raises(rrs, k) && (forall j :: k < j < |rrs| ==> !Raises(rrs, j))
      && (forall j :: k <= j < |rrs| ==> rrs[j].ttl > rrs[i].ttl)
  }

  /** From record k on, without growth after it, the minimum only falls, to the least TTL
      met or where it was. */
  lemma {:induction false} NoGrowthAfter(rrs: seq<RRView>, k: nat, n: nat)
    requires k < n <= |rrs| && forall j :: k < j < n ==> !Raises(rrs, j)
    ensures var m0 := rrs[0].ttl * TICKS;
            && Running(m0, rrs, n) <= Running(m0, rrs, k + 1)
            && (forall j :: k <= j < n ==> Running(m0, rrs, n) <= rrs[j].ttl * TICKS)
            && (Running(m0, rrs, n) == Running(m0, rrs, k + 1) ||
                exists j :: k <= j < n && Running(m0, rrs, n) == rrs[j].ttl * TICKS)
  {
    var m0 := rrs[0].ttl * TICKS;
    SoaRaisesMinimum(Running(m0, rrs, n - 1), rrs[n-1]);
    if n > k + 1 {
      NoGrowthAfter(rrs, k, n - 1);
      assert !Raises(rrs, n - 1);
    }
  }

  /** The last record from i + 1 on that makes the minimum grow, below n. */
  lemma {:induction false} LastRaise(rrs: seq<RRView>, i: nat, n: nat) returns (k: nat)
    requires i < n <= |rrs|
    ensures i <= k < n && (k > i ==> Raises(rrs, k)) && forall j :: k < j < n ==> !Raises(rrs, j)
  {
    if n == i + 1 || Raises(rrs, n - 1) {
      k := n - 1;
    } else {
      k := LastRaise(rrs, i, n - 1);
    }
  }

  lemma RaiseStores(rrs: seq<RRView>, k: nat)
    requires k < |rrs| && Raises(rrs, k)
    ensures Running(rrs[0].ttl * TICKS, rrs, k + 1) == rrs[k].ttl * TICKS
  {
  }

  lemma OvertakenOnly(rrs: seq<RRView>, i: nat)
    requires i < |rrs| && Running(rrs[0].ttl * TICKS, rrs, |rrs|) > rrs[i].ttl * TICKS
    ensures Overtaken(rrs, i)
  {
    var k := LastRaise(rrs, i, |rrs|);
    NoGrowthAfter(rrs, k, |rrs|);
    assert k > i;
    assert forall j :: k <= j < |rrs| ==> rrs[j].ttl * TICKS > rrs[i].ttl * TICKS;
  }

  lemma OvertakenIs(rrs: seq<RRView>, i: nat)
    requires i < |rrs| && Overtaken(rrs, i)
    ensures Running(rrs[0].ttl * TICKS, rrs, |rrs|) > rrs[i].ttl * TICKS
  {
    var k :| i < k < |rrs| && Raises(rrs, k) && (forall j :: k < j < |rrs| ==> !Raises(rrs, j))
      && (forall j :: k <= j < |rrs| ==> rrs[j].ttl > rrs[i].ttl);
    RaiseStores(rrs, k);
    NoGrowthAfter(rrs, k, |rrs|);
  }

  /** With SOA records the constructor's minimum exceeds a record's TTL exactly when an SOA
      record behind it made the minimum grow for the last time, and neither that record nor
      a later one has a TTL as low. */
  lemma MinimumAboveTtl(defaultTtl: int, answers: seq<RRView>, additional: seq<RRView>, i: nat)
    requires i < |answers + additional|
    ensures var all := answers + additional;
            InitialMin(defaultTtl, answers, additional) > all[i].ttl * TICKS <==> Overtaken(all, i)
  {
    var all := answers + additional;
    InitialMinRuns(defaultTtl, answers, additional);
    if Overtaken(all, i) {
      OvertakenIs(all, i);
    }
    if InitialMin(defaultTtl, answers, additional) > all[i].ttl * TICKS {
      OvertakenOnly(all, i);
    }
  }

  /** An address of TTL 100 before an SOA record of TTL 3600 and minimum 60: the answer
      starts from an hour, and an update 200 seconds on, long before the answer expires,
      already wraps the TTL of the address. */
  lemma SoaStartsOutOfStep()
    ensures var rrs := [RRView(A, 100, 0), RRView(SOA, 3600, 60)];
            && InitialMin(300, rrs, []) == 3600 * TICKS && Overtaken(rrs, 0)
            && TickTtl(Clock(0, 3600 * TICKS), 100, 200 * TICKS, 1) == TWO_TO_32 - 100
  {
    var rrs := [RRView(A, 100, 0), RRView(SOA, 3600, 60)];
    assert rrs + [] == rrs;
    assert Running(100 * TICKS, rrs, 1) == 100 * TICKS;
    assert Running(100 * TICKS, rrs, 2) == 3600 * TICKS;
    InitialMinRuns(300, rrs, []);
    MinimumAboveTtl(300, rrs, [], 0);
    assert Drop(Clock(0, 3600 * TICKS), 200 * TICKS) == 200;
    WrapBelowZero(-100);
  }

  lemma {:induction false} FoldMinIsLeast(minSet: bool, m: int, rrs: seq<RRView>)
    requires forall i :: 0 <= i < |rrs| ==> rrs[i].rtype != SOA
    ensures var r := FoldMin(minSet, m, rrs);
            && r.0 == (minSet || rrs != [])
            && (minSet ==> r.1 <= m) && (!r.0 ==> r.1 == m)
            && (forall i :: 0 <= i < |rrs| ==> r.1 <= rrs[i].ttl * TICKS)
            && (r.1 == m || exists i :: 0 <= i < |rrs| && r.1 == rrs[i].ttl * TICKS)
    decreases |rrs|
  {
    if rrs != [] {
      var m' := if minSet then m else rrs[0].ttl * TICKS;
      FoldMinIsLeast(true, StepMin(m', rrs[0]), rrs[1..]);
      var r := FoldMin(minSet, m, rrs);
      assert forall i :: 1 <= i < |rrs| ==> rrs[i] == rrs[1..][i-1];
      if r.1 != m && r.1 != rrs[0].ttl * TICKS {
        var j :| 0 <= j < |rrs[1..]| && r.1 == rrs[1..][j].ttl * TICKS;
        assert r.1 == rrs[j+1].ttl * TICKS;
      }
    }
  }

  /** Without SOA records the constructor starts from the least TTL of all the answer and
      additional records, or from the default when there are none. */
  lemma InitialMinIsLeast(defaultTtl: int, answers: seq<RRView>, additional: seq<RRView>)
    requires forall i :: 0 <= i < |answers| ==> answers[i].rtype != SOA
    requires forall i :: 0 <= i < |additional| ==> additional[i].rtype != SOA
    ensures var m := InitialMin(defaultTtl, answers, additional);
            var all := answers + additional;
            && (forall i :: 0 <= i < |all| ==> m <= all[i].ttl * TICKS)
            && (all == [] ==> m == defaultTtl * TICKS)
            && (all != [] ==> exists i :: 0 <= i < |all| && m == all[i].ttl * TICKS)
  {
    var r := FoldMin(false, defaultTtl * TICKS, answers);
    FoldMinIsLeast(false, defaultTtl * TICKS, answers);
    FoldMinIsLeast(r.0, r.1, additional);
    var m, all := InitialMin(defaultTtl, answers, additional), answers + additional;
    forall i | 0 <= i < |all|
      ensures m <= all[i].ttl * TICKS
    {
      if i >= |answers| {
        assert all[i] == additional[i - |answers|];
      }
    }
    if all != [] {
      if additional != [] && exists i :: 0 <= i < |additional| && m == additional[i].ttl * TICKS {
        var i :| 0 <= i < |additional| && m == additional[i].ttl * TICKS;
        assert all[|answers| + i] == additional[i];
      } else {
        LeastIsAttained(defaultTtl, answers);
        assert answers != [] by {
          if answers == [] { FoldMinOfFirst(defaultTtl * TICKS, additional); }
        }
        var i :| 0 <= i < |answers| && r.1 == answers[i].ttl * TICKS;
        assert all[i] == answers[i];
      }
    }
  }

  lemma FoldMinOfFirst(m: int, rrs: seq<RRView>)
    requires rrs != [] && forall i :: 0 <= i < |rrs| ==> rrs[i].rtype != SOA
    ensures exists i :: 0 <= i < |rrs| && FoldMin(false, m, rrs).1 == rrs[i].ttl * TICKS
  {
    var first := rrs[0].ttl * TICKS;
    FoldMinIsLeast(true, first, rrs);
    assert FoldMin(false, m, rrs) == FoldMin(true, first, rrs);
    if FoldMin(true, first, rrs).1 == first {
      assert FoldMin(false, m, rrs).1 == rrs[0].ttl * TICKS;
    }
  }

  lemma LeastIsAttained(defaultTtl: int, answers: seq<RRView>)
    requires forall i :: 0 <= i < |answers| ==> answers[i].rtype != SOA
    ensures answers != [] ==>
              exists i :: 0 <= i < |answers| && FoldMin(false, defaultTtl * TICKS, answers).1 == answers[i].ttl * TICKS
  {
    if answers != [] {
      FoldMinOfFirst(defaultTtl * TICKS, answers);
    }
  }

  // ---- Records ----

  class ResourceRecord {
    const name: Name
    const rtype: RRType
    const nsdname: Name  // of an NS record
    const address: nat   // of an A or AAAA record
    const minimum: nat   // of an SOA record
    const text: string   // printed form without the TTL
    var ttl: nat

    constructor (name: Name, rtype: RRType, nsdname: Name, address: nat, minimum: nat, text: string, ttl: nat)
      requires ttl < TWO_TO_32
      ensures this.name == name && this.rtype == rtype && this.nsdname == nsdname && this.address == address
      ensures this.minimum == minimum && this.text == text && this.ttl == ttl
    {
      this.name, this.rtype, this.nsdname, this.address := name, rtype, nsdname, address;
      this.minimum, this.text, this.ttl := minimum, text, ttl;
    }

    method UpdateTtl(diff: int)
      modifies this`ttl
      ensures ttl == Wrap(old(ttl) + diff)
    {
      ttl := Wrap(ttl + diff);
    }

    ghost function View(): RRView
      reads this
    {
      RRView(rtype, ttl, minimum)
    }
  }

  ghost function RecordSet(rrs: seq<ResourceRecord>): set<ResourceRecord> {
    set r | r in rrs
  }

  ghost function Views(rrs: seq<ResourceRecord>): (vs: seq<RRView>)
    reads RecordSet(rrs)
    ensures |vs| == |rrs| && forall i :: 0 <= i < |rrs| ==> vs[i] == rrs[i].View()
    decreases |rrs|
  {
    if rrs == [] then [] else [rrs[0].View()] + Views(rrs[1..])
  }

  /** How often a record object is listed. */
  ghost function Times(rrs: seq<ResourceRecord>, r: ResourceRecord): nat
    decreases |rrs|
  {
    if rrs == [] then 0
    else Times(rrs[..|rrs|-1], r) + (if rrs[|rrs|-1] == r then 1 else 0)
  }

  lemma {:induction false} TimesZero(rrs: seq<ResourceRecord>, r: ResourceRecord)
    requires r !in rrs
    ensures Times(rrs, r) == 0
    decreases |rrs|
  {
    if rrs != [] {
      TimesZero(rrs[..|rrs|-1], r);
    }
  }

  /** A record listed once counts once. */
  lemma {:induction false} TimesOfDistinct(rrs: seq<ResourceRecord>, r: ResourceRecord)
    requires r in rrs && forall i, j :: 0 <= i < j < |rrs| ==> rrs[i] != rrs[j]
    ensures Times(rrs, r) == 1
    decreases |rrs|
  {
    var init := rrs[..|rrs|-1];
    if rrs[|rrs|-1] == r {
      TimesZero(init, r);
    } else {
      assert rrs == init + [rrs[|rrs|-1]];
      TimesOfDistinct(init, r);
    }
  }

  /** A TTL from which d seconds have been taken n times. */
  function Lowered(ttl: nat, n: nat, d: nat): nat {
    if n == 0 then ttl else Wrap(Lowered(ttl, n - 1, d) - d)
  }

  lemma MulSucc(n: nat, d: nat)
    requires n > 0
    ensures n * d == (n - 1) * d + d
  {
  }

  lemma {:induction false} LoweredAtOnce(ttl: nat, n: nat, d: nat)
    requires ttl < TWO_TO_32
    ensures Lowered(ttl, n, d) == Wrap(ttl - n * d)
  {
    if n > 0 {
      LoweredAtOnce(ttl, n - 1, d);
      var p := (n - 1) * d;
      MulSucc(n, d);
      WrapAdd(ttl - p, 0 - d);
    }
  }

  /** The loops of update_ttls: d seconds less for every listed record, once per listing. */
  method UpdateEach(rrs: seq<ResourceRecord>, d: nat)
    modifies RecordSet(rrs)`ttl
    ensures forall r :: r in rrs ==> r.ttl == Lowered(old(r.ttl), Times(rrs, r), d)
  {
    var i := 0;
    while i < |rrs|
      invariant 0 <= i <= |rrs|
      invariant forall r :: r in rrs ==> r.ttl == Lowered(old(r.ttl), Times(rrs[..i], r), d)
    {
      ghost var before := rrs[..i];
      assert rrs[..i+1][..i] == before;
      rrs[i].UpdateTtl(0 - d);
      i := i + 1;
    }
    assert rrs[..|rrs|] == rrs;
  }

  method SetEach(rrs: seq<ResourceRecord>, ttl: nat)
    modifies RecordSet(rrs)`ttl
    ensures forall r :: r in rrs ==> r.ttl == ttl
  {
    var i := 0;
    while i < |rrs|
      invariant 0 <= i <= |rrs|
      invariant forall r :: r in rrs[..i] ==> r.ttl == ttl
    {
      rrs[i].ttl := ttl;
      i := i + 1;
    }
    assert rrs[..|rrs|] == rrs;
  }

  /** One of the loops of the constructor that look for the minimum TTL. */
  method UpdateMinTtl(minSet: bool, m: int, rrs: seq<ResourceRecord>) returns (minSet': bool, m': int)
    ensures (minSet', m') == FoldMin(minSet, m, old(Views(rrs)))
  {
    minSet', m' := minSet, m;
    ghost var views := Views(rrs);
    var i := 0;
    while i < |rrs|
      invariant 0 <= i <= |rrs|
      invariant FoldMin(minSet', m', views[i..]) == FoldMin(minSet, m, views)
    {
      if !minSet' {
        m' := rrs[i].ttl * TICKS;
        minSet' := true;
      }
      var ttl := if rrs[i].rtype == SOA then Min(rrs[i].ttl, rrs[i].minimum) else rrs[i].ttl;
      if ttl * TICKS < m' {
        m' := rrs[i].ttl * TICKS;
      }
      assert views[i..][1..] == views[i+1..];
      i := i + 1;
    }
  }

  /** Both loops: the minimum TTL a new answer starts from. */
  method InitialMinimum(defaultTtl: nat, ans: seq<ResourceRecord>, additional: seq<ResourceRecord>,
                        ghost va: seq<RRView>, ghost vb: seq<RRView>)
    returns (m: int)
    requires va == Views(ans) && vb == Views(additional)
    ensures m == InitialMin(defaultTtl, va, vb) && m >= 0
  {
    InitialMinNonNegative(defaultTtl, va, vb);
    var minSet, m1 := UpdateMinTtl(false, defaultTtl * TICKS, ans);
    assert Views(additional) == vb;
    var _, m2 := UpdateMinTtl(minSet, m1, additional);
    m := m2;
  }

  // ---- Referral names ----

  function NameText(n: Name): string {
    if n == [] then "" else if |n| == 1 then n[0] else n[0] + "." + NameText(n[1..])
  }

  /** The NS records a referral keeps. */
  predicate Usable(r: ResourceRecord)
    reads r`ttl
  {
    r.rtype == NS && r.ttl != 0
  }

  ghost predicate SomeUsable(rrs: seq<ResourceRecord>)
    reads RecordSet(rrs)
  {
    exists i :: 0 <= i < |rrs| && Usable(rrs[i])
  }

  /** The usable records of a list, in its order and as often as it lists them. */
  ghost function UsableOf(rrs: seq<ResourceRecord>): seq<ResourceRecord>
    reads RecordSet(rrs)`ttl
    decreases |rrs|
  {
    if rrs == [] then []
    else UsableOf(rrs[..|rrs|-1]) + (if Usable(rrs[|rrs|-1]) then [rrs[|rrs|-1]] else [])
  }

  twostate lemma {:induction false} UsableKept(rrs: seq<ResourceRecord>)
    requires forall r :: r in rrs ==> r.ttl == old(r.ttl)
    ensures UsableOf(rrs) == old(UsableOf(rrs))
    decreases |rrs|
  {
    if rrs != [] {
      UsableKept(rrs[..|rrs|-1]);
    }
  }

  /** Whether the usable NS records name a single domain, names being told apart by text. */
  ghost predicate OneName(rrs: seq<ResourceRecord>)
    reads RecordSet(rrs)
  {
    forall i, j :: 0 <= i < |rrs| && 0 <= j < |rrs| && Usable(rrs[i]) && Usable(rrs[j]) ==>
      NameText(rrs[i].name) == NameText(rrs[j].name)
  }

  lemma {:induction false} UsableMembers(rrs: seq<ResourceRecord>)
    ensures forall i :: 0 <= i < |UsableOf(rrs)| ==> UsableOf(rrs)[i] in rrs && Usable(UsableOf(rrs)[i])
    ensures forall i :: 0 <= i < |rrs| && Usable(rrs[i]) ==> rrs[i] in UsableOf(rrs)
    ensures |UsableOf(rrs)| <= |rrs|
    decreases |rrs|
  {
    if rrs != [] {
      UsableMembers(rrs[..|rrs|-1]);
      assert rrs == rrs[..|rrs|-1] + [rrs[|rrs|-1]];
    }
  }

  ghost predicate SameText(rrs: seq<ResourceRecord>, name: Name) {
    forall r :: r in rrs ==> NameText(r.name) == NameText(name)
  }

  lemma UsableOfOneName(rrs: seq<ResourceRecord>, name: Name)
    requires SameText(UsableOf(rrs), name)
    ensures OneName(rrs)
    ensures SomeUsable(rrs) <==> UsableOf(rrs) != []
  {
    UsableMembers(rrs);
    if UsableOf(rrs) != [] {
      var r := UsableOf(rrs)[0];
      assert r in rrs && Usable(r);
      var k :| 0 <= k < |rrs| && rrs[k] == r;
      assert Usable(rrs[k]);
    }
  }

  lemma TwoNames(rrs: seq<ResourceRecord>, i: nat, r: ResourceRecord)
    requires i < |rrs| && Usable(rrs[i]) && r in UsableOf(rrs[..i]) && NameText(r.name) != NameText(rrs[i].name)
    ensures !OneName(rrs)
  {
    UsableMembers(rrs[..i]);
    var k :| 0 <= k < i && rrs[k] == r;
    assert Usable(rrs[k]);
  }

  /** The loop that filters the NS records of a referral. None stands for the exception
      thrown when no usable record, or more than one name, is left. */
  method UsableNameservers(rrs: seq<ResourceRecord>) returns (kept: seq<ResourceRecord>, name: Option<Name>)
    ensures name.Some? <==> SomeUsable(rrs) && OneName(rrs)
    ensures name.Some? ==> kept != [] && kept[0].name == name.value && SameText(kept, name.value)
    ensures kept == old(UsableOf(rrs))
    ensures forall r :: r in kept <==> r in rrs && Usable(r)
    ensures |kept| <= |rrs|
  {
    kept := [];
    name := None;
    var clash := false;
    var i := 0;
    while i < |rrs|
      invariant 0 <= i <= |rrs| && kept == UsableOf(rrs[..i])
      invariant name.None? <==> kept == []
      invariant kept != [] ==> kept[0].name == name.value
      invariant !clash && name.Some? ==> SameText(kept, name.value)
      invariant clash ==> !OneName(rrs)
    {
      assert rrs[..i+1][..i] == rrs[..i];
      if rrs[i].rtype == NS && rrs[i].ttl != 0 {
        if name.None? {
          name := Some(rrs[i].name);
        } else if NameText(rrs[i].name) != NameText(name.value) {
          TwoNames(rrs, i, kept[0]);
          clash := true;
        }
        kept := kept + [rrs[i]];
      }
      i := i + 1;
    }
    assert rrs[..|rrs|] == rrs;
    UsableKept(rrs);
    UsableMembers(rrs);
    if clash {
      name := None;
    } else {
      UsableOfOneName(rrs, if name.Some? then name.value else ROOT);
    }
  }

  // ---- Merging records into an answer ----

  /** The records of rrs whose text is not in `seen`, first occurrence only. */
  function Added(seen: set<string>, rrs: seq<ResourceRecord>): seq<ResourceRecord>
    decreases |rrs|
  {
    if rrs == [] then []
    else if rrs[0].text in seen then Added(seen, rrs[1..])
    else [rrs[0]] + Added(seen + {rrs[0].text}, rrs[1..])
  }

  function Texts(rrs: seq<ResourceRecord>): set<string> {
    set r | r in rrs :: r.text
  }

  /** Records from rrs whose texts are not in `seen` and pairwise different. */
  ghost predicate NewAndDistinct(a: seq<ResourceRecord>, seen: set<string>, rrs: seq<ResourceRecord>) {
    && (forall i, j :: 0 <= i < j < |a| ==> a[i].text != a[j].text)
    && (forall i :: 0 <= i < |a| ==> a[i] in rrs && a[i].text !in seen)
  }

  lemma NewAndDistinctCons(x: ResourceRecord, a: seq<ResourceRecord>, seen: set<string>, rrs: seq<ResourceRecord>)
    requires NewAndDistinct(a, seen + {x.text}, rrs) && x.text !in seen
    ensures NewAndDistinct([x] + a, seen, [x] + rrs)
  {
    var b := [x] + a;
    forall i | 0 <= i < |b|
      ensures b[i] in [x] + rrs && b[i].text !in seen
      ensures i > 0 ==> b[i] == a[i-1] && b[i].text != x.text
    {
      if i > 0 {
        assert b[i] == a[i-1] && a[i-1] in rrs;
      }
    }
  }

  /** Merging adds records whose texts are new and pairwise different ... */
  lemma {:induction false} AddedIsNew(seen: set<string>, rrs: seq<ResourceRecord>)
    ensures NewAndDistinct(Added(seen, rrs), seen, rrs)
    decreases |rrs|
  {
    if rrs == [] {
    } else if rrs[0].text in seen {
      AddedIsNew(seen, rrs[1..]);
      assert Added(seen, rrs) == Added(seen, rrs[1..]);
    } else {
      AddedIsNew(seen + {rrs[0].text}, rrs[1..]);
      NewAndDistinctCons(rrs[0], Added(seen + {rrs[0].text}, rrs[1..]), seen, rrs[1..]);
      assert rrs == [rrs[0]] + rrs[1..];
    }
  }

  /** ... and misses none. */
  lemma {:induction false} AddedMissesNone(seen: set<string>, rrs: seq<ResourceRecord>, r: ResourceRecord)
    requires r in rrs
    ensures r.text in seen + Texts(Added(seen, rrs))
    decreases |rrs|
  {
    if rrs[0].text in seen {
      if r != rrs[0] {
        AddedMissesNone(seen, rrs[1..], r);
      }
    } else {
      var rest := Added(seen + {rrs[0].text}, rrs[1..]);
      TextsConcat([rrs[0]], rest);
      assert rrs[0] in [rrs[0]];
      if r != rrs[0] {
        AddedMissesNone(seen + {rrs[0].text}, rrs[1..], r);
      }
    }
  }

  lemma TextsConcat(a: seq<ResourceRecord>, b: seq<ResourceRecord>)
    ensures Texts(a + b) == Texts(a) + Texts(b)
  {
    assert forall r :: r in a + b <==> r in a || r in b;
    assert forall r :: r in a ==> r in a + b;
    assert forall r :: r in b ==> r in a + b;
  }

  // ---- The answer object ----

  class Answer {
    const sequence: nat
    const atype: AnswerType
    const referralName: Name
    const nsRecords: seq<ResourceRecord>
    const additionalRecords: seq<ResourceRecord>
    var answerRecords: seq<ResourceRecord>
    var numRecords: nat
    var answerTexts: set<string>
    var createTime: int
    var minTtl: int

    function Time(): Clock
      reads this`createTime, this`minTtl
    {
      Clock(createTime, minTtl)
    }

    function Records(): seq<ResourceRecord>
      reads this`answerRecords
    {
      answerRecords + nsRecords + additionalRecords
    }

    ghost predicate Valid()
      reads this, RecordSet(Records())
    {
      && minTtl >= 0
      && numRecords == |Records()|
      && answerTexts == Texts(answerRecords)
      && forall r :: r in Records() ==> r.ttl < TWO_TO_32
    }

    /** The fields as the constructor leaves them; `Create` computes them. */
    constructor (sequence: nat, t: AnswerType, name: Name, ans: seq<ResourceRecord>, ns: seq<ResourceRecord>,
                 additional: seq<ResourceRecord>, now: int, minTtl: int)
      ensures this.sequence == sequence && atype == t && referralName == name
      ensures answerRecords == ans && nsRecords == ns && additionalRecords == additional
      ensures numRecords == |Records()| && answerTexts == Texts(ans)
      ensures createTime == now && this.minTtl == minTtl
    {
      this.sequence, atype, referralName := sequence, t, name;
      nsRecords, additionalRecords, answerRecords := ns, additional, ans;
      numRecords := |ans| + |additional| + |ns|;
      answerTexts := Texts(ans);
      createTime, this.minTtl := now, minTtl;
    }

    /** The constructor. None stands for the exception a referral without usable NS
        records, or with several names, is refused with. The minimum TTL is taken before
        the NS records are stored, so they never contribute to it. */
    static method Create(sequence: nat, t: AnswerType, defaultTtl: nat, ans: seq<ResourceRecord>,
                         ns: seq<ResourceRecord>, additional: seq<ResourceRecord>, now: int)
      returns (r: Option<Answer>)
      requires forall x :: x in ans + ns + additional ==> x.ttl < TWO_TO_32
      ensures r.None? <==> t == Referral && !(SomeUsable(ns) && OneName(ns))
      ensures r.Some? ==>
                && fresh(r.value) && r.value.Valid() && r.value.sequence == sequence && r.value.atype == t
                && r.value.answerRecords == ans && r.value.additionalRecords == additional
                && r.value.Time() == Clock(now, InitialMin(defaultTtl, old(Views(ans)), old(Views(additional))))
                && (t != Referral ==> r.value.nsRecords == [])
                && (t == Referral ==>
                      r.value.nsRecords == old(UsableOf(ns)) &&
                      (forall x :: x in r.value.nsRecords <==> x in ns && Usable(x)) &&
                      r.value.nsRecords != [] && r.value.referralName == r.value.nsRecords[0].name)
    {
      ghost var va, vb, usable := Views(ans), Views(additional), UsableOf(ns);
      var m := InitialMinimum(defaultTtl, ans, additional, va, vb);
      if t == Referral {
        UsableKept(ns);
        var kept, name := UsableNameservers(ns);
        if name.None? {
          return None;
        }
        var a := new Answer(sequence, t, name.value, ans, kept, additional, now, m);
        r := Some(a);
      } else {
        var a := new Answer(sequence, t, ROOT, ans, [], additional, now, m);
        r := Some(a);
      }
    }

    /** A copy shares the record objects but restarts the clock with the remaining minimum
        TTL: its deadline is later by the time since the original was last updated. */
    static method Copy(other: Answer, sequence: nat, now: int) returns (r: Answer)
      requires other.Valid()
      ensures fresh(r) && r.Valid() && r.sequence == sequence && r.atype == other.atype
      ensures r.Records() == other.Records() && r.numRecords == other.numRecords
      ensures r.Time() == Clock(now, other.minTtl)
      ensures Deadline(r.Time()) == Deadline(other.Time()) + (now - other.createTime)
    {
      r := new Answer(sequence, other.atype, other.referralName, other.answerRecords, other.nsRecords,
                      other.additionalRecords, now, other.minTtl);
    }

    predicate Expired(now: int)
      reads this`createTime, this`minTtl
    {
      now - createTime > minTtl
    }

    function GetMinTtl(): int
      reads this`minTtl
    {
      minTtl / TICKS
    }

    /** What an update at `now` leaves: the answer as it was within a second of the last
        update; otherwise the reading as create time, the minimum less the time that has
        passed as long as there is any, and each record that is listed once and not below
        the minimum with as many whole seconds less. */
    twostate predicate UpToDate(now: int)
      reads this, RecordSet(Records())
    {
      var passed := now - old(createTime);
      && Records() == old(Records())
      && (passed < TICKS ==>
            && createTime == old(createTime) && minTtl == old(minTtl)
            && forall r :: r in Records() ==> r.ttl == old(r.ttl))
      && (passed >= TICKS ==>
            && createTime == now && minTtl == (if passed <= old(minTtl) then old(minTtl) - passed else 0)
            && forall r :: r in Records() && Times(Records(), r) == 1 && old(minTtl) <= old(r.ttl) * TICKS ==>
                 r.ttl == old(r.ttl) - (if passed <= old(minTtl) then passed else old(minTtl)) / TICKS)
    }

    method UpdateTtls(now: int)
      requires Valid()
      modifies this`createTime, this`minTtl, RecordSet(Records())`ttl
      ensures Valid() && UpToDate(now)
      ensures Time() == Tick(old(Time()), now)
      ensures forall r :: r in Records() ==>
                r.ttl == TickTtl(old(Time()), old(r.ttl), now, Times(Records(), r))
    {
      UpdateRecords(now);
      forall r | r in Records()
        ensures now - old(createTime) < TICKS ==> r.ttl == old(r.ttl)
        ensures now - old(createTime) >= TICKS && Times(Records(), r) == 1 && old(minTtl) <= old(r.ttl) * TICKS ==>
                  r.ttl == old(r.ttl) - Min(now - old(createTime), old(minTtl)) / TICKS
      {
        UpdateInNumbers(old(Time()), old(r.ttl), now, Times(Records(), r));
      }
      UpdateInNumbers(old(Time()), 0, now, 0);
    }

    /** update_ttls, in the order of the source. */
    method UpdateRecords(now: int)
      requires Valid()
      modifies this`createTime, this`minTtl, RecordSet(Records())`ttl
      ensures Valid() && Time() == Tick(old(Time()), now)
      ensures forall r :: r in Records() ==>
                r.ttl == TickTtl(old(Time()), old(r.ttl), now, Times(Records(), r))
    {
      var diff := now - createTime;
      if diff < TICKS {
        return;
      }
      if diff > minTtl {
        diff := minTtl;
      }
      ghost var c0 := Time();
      minTtl := minTtl - diff;
      createTime := now;
      var seconds: nat := diff / TICKS;
      assert seconds == Drop(c0, now);
      UpdateEach(Records(), seconds);
      forall r | r in Records()
        ensures r.ttl == TickTtl(c0, old(r.ttl), now, Times(Records(), r))
      {
        LoweredAtOnce(old(r.ttl), Times(Records(), r), seconds);
      }
    }

    method SetTtls(ttl: nat)
      requires Valid() && ttl < TWO_TO_32
      modifies this`minTtl, RecordSet(Records())`ttl
      ensures Valid() && Time() == Clock(old(createTime), ttl * TICKS)
      ensures forall r :: r in Records() ==> r.ttl == ttl
    {
      SetEach(answerRecords, ttl);
      SetEach(nsRecords, ttl);
      SetEach(additionalRecords, ttl);
      minTtl := ttl * TICKS;
    }

    /** Merges records that are not yet listed; neither clock nor minimum TTL changes. */
    method AddAnswerRecords(rrs: seq<ResourceRecord>)
      requires Valid() && forall r :: r in rrs ==> r.ttl < TWO_TO_32
      modifies this`answerRecords, this`answerTexts, this`numRecords
      ensures Valid()
      ensures answerRecords == old(answerRecords) + Added(old(answerTexts), rrs)
    {
      ghost var ans0, texts0 := answerRecords, answerTexts;
      var i := 0;
      while i < |rrs|
        invariant 0 <= i <= |rrs| && Valid()
        invariant answerRecords + Added(answerTexts, rrs[i..]) == ans0 + Added(texts0, rrs)
        invariant forall r :: r in rrs ==> r.ttl < TWO_TO_32
      {
        assert rrs[i..][1..] == rrs[i+1..];
        if rrs[i].text !in answerTexts {
          TextsConcat(answerRecords, [rrs[i]]);
          assert Texts([rrs[i]]) == {rrs[i].text};
          answerRecords := answerRecords + [rrs[i]];
          answerTexts := answerTexts + {rrs[i].text};
          numRecords := numRecords + 1;
        }
        i := i + 1;
      }
    }

    predicate HasAnswerRecord(t: RRType)
      reads this`answerRecords
    {
      exists r :: r in answerRecords && r.rtype == t
    }
  }

  // ---- Runs over answer objects that share records ----

  ghost function AnswerSet(answers: seq<Answer>): set<Answer> {
    set a | a in answers
  }

  predicate DistinctAnswers(answers: seq<Answer>) {
    forall i, j :: 0 <= i < j < |answers| ==> answers[i] != answers[j]
  }

  /** Answers in a legal state whose records are all among `rs`. */
  ghost predicate AllValid(answers: seq<Answer>, rs: set<ResourceRecord>)
    reads AnswerSet(answers), rs
  {
    forall i :: 0 <= i < |answers| ==> RecordSet(answers[i].Records()) <= rs && answers[i].Valid()
  }

  /** The answers as the record sees them. */
  ghost predicate Seen(answers: seq<Answer>, r: ResourceRecord, ls: seq<Listing>)
    reads AnswerSet(answers)
  {
    && |ls| == |answers|
    && forall i :: 0 <= i < |ls| ==> ls[i] == Listing(answers[i].Time(), Times(answers[i].Records(), r))
  }

  twostate predicate SameFields(a: Answer)
    reads a
  {
    && a.answerRecords == old(a.answerRecords) && a.numRecords == old(a.numRecords)
    && a.answerTexts == old(a.answerTexts) && a.Time() == old(a.Time())
  }

  /** Only one answer changed, and no record but its own. */
  twostate predicate OnlyOne(answers: seq<Answer>, k: nat, rs: set<ResourceRecord>)
    requires k < |answers|
    reads AnswerSet(answers), rs
  {
    && answers[k].Records() == old(answers[k].Records())
    && RecordSet(answers[k].Records()) <= rs && answers[k].Valid()
    && (forall i :: 0 <= i < |answers| && i != k ==> SameFields(answers[i]))
    && (forall x :: x in rs && x !in answers[k].Records() ==> x.ttl == old(x.ttl))
  }

  /** The TTL update_ttls leaves a record, whether the answer lists it or not. */
  method UpdateSeen(a: Answer, now: int, ghost r: ResourceRecord)
    requires a.Valid() && r.ttl < TWO_TO_32
    modifies a`createTime, a`minTtl, RecordSet(a.Records())`ttl
    ensures a.Valid() && a.Time() == Tick(old(a.Time()), now)
    ensures r.ttl == TickTtl(old(a.Time()), old(r.ttl), now, Times(a.Records(), r))
  {
    if r !in a.Records() {
      TimesZero(a.Records(), r);
    }
    a.UpdateTtls(now);
  }

  /** One update of one of the answers: all it changes ... */
  method UpdateOnly(answers: seq<Answer>, u: Update, ghost r: ResourceRecord, ghost rs: set<ResourceRecord>)
    requires DistinctAnswers(answers) && u.who < |answers| && r.ttl < TWO_TO_32
    requires answers[u.who].Valid() && RecordSet(answers[u.who].Records()) <= rs
    modifies AnswerSet(answers), rs`ttl
    ensures OnlyOne(answers, u.who, rs)
    ensures answers[u.who].Time() == Tick(old(answers[u.who].Time()), u.now)
    ensures r.ttl == TickTtl(old(answers[u.who].Time()), old(r.ttl), u.now, Times(answers[u.who].Records(), r))
  {
    var a := answers[u.who];
    assert a in AnswerSet(answers);
    UpdateSeen(a, u.now, r);
  }

  /** ... and what the record sees of it. */
  method UpdateOne(answers: seq<Answer>, u: Update, ghost r: ResourceRecord, ghost ls: seq<Listing>,
                   ghost rs: set<ResourceRecord>)
    requires DistinctAnswers(answers) && AllValid(answers, rs) && Seen(answers, r, ls)
    requires u.who < |answers| && r.ttl < TWO_TO_32
    modifies AnswerSet(answers), rs`ttl
    ensures AllValid(answers, rs) && Seen(answers, r, AfterUpdate(ls, u))
    ensures r.ttl == TickTtl(ls[u.who].clock, old(r.ttl), u.now, ls[u.who].times)
  {
    UpdateOnly(answers, u, r, rs);
    forall i | 0 <= i < |answers|
      ensures RecordSet(answers[i].Records()) <= rs && answers[i].Valid()
      ensures AfterUpdate(ls, u)[i] == Listing(answers[i].Time(), Times(answers[i].Records(), r))
    {
      if i != u.who {
        assert SameFields(answers[i]);
        assert forall x :: x in answers[i].Records() ==> x in RecordSet(answers[i].Records());
      }
    }
  }

  /** A run of lookups that hit the given answers: whatever records they share, the clocks
      and the TTL of each record end as the shared run says. */
  method UpdateInTurn(answers: seq<Answer>, us: seq<Update>, ghost r: ResourceRecord, ghost ls: seq<Listing>,
                      ghost rs: set<ResourceRecord>)
    requires DistinctAnswers(answers) && AllValid(answers, rs) && Seen(answers, r, ls) && Sensible(ls, us)
    requires r.ttl < TWO_TO_32
    modifies AnswerSet(answers), rs`ttl
    ensures AllValid(answers, rs) && Seen(answers, r, RunListings(ls, us))
    ensures r.ttl == RunShared(ls, old(r.ttl), us)
    decreases |us|
  {
    if us != [] {
      SensibleStep(ls, us);
      UpdateOne(answers, us[0], r, ls, rs);
      UpdateInTurn(answers, us[1..], r, AfterUpdate(ls, us[0]), rs);
    }
  }

  /** A cached answer and its cached copy, each listing the same record once, as the CNAME
      path of the resolver leaves them: one lookup of each, both before expiry, and the
      record's TTL has wrapped. */
  method CopyMakesTtlWrap() returns (r: ResourceRecord)
    ensures fresh(r) && r.ttl == TWO_TO_32 - 2
  {
    r := new ResourceRecord(ROOT, A, ROOT, 0, 0, "r", 10);
    var a := new Answer(0, Data, ROOT, [r], [], [], 0, 10 * TICKS);
    var b := Answer.Copy(a, 1, 0);
    assert a.Records() == [r] + [] + [] && b.Records() == [r] + [] + [];
    ListedByBoth(r, a.Records());
    UpdateSeen(a, 6 * TICKS, r);
    FirstOfTwo();
    UpdateSeen(b, 6 * TICKS, r);
    SecondOfTwo();
  }

  lemma FirstOfTwo()
    ensures TickTtl(Clock(0, 10 * TICKS), 10, 6 * TICKS, 1) == 4
  {
    assert Drop(Clock(0, 10 * TICKS), 6 * TICKS) == 6;
  }

  lemma SecondOfTwo()
    ensures TickTtl(Clock(0, 10 * TICKS), 4, 6 * TICKS, 1) == TWO_TO_32 - 2
  {
    assert Drop(Clock(0, 10 * TICKS), 6 * TICKS) == 6;
    WrapBelowZero(-2);
  }

  lemma ListedByBoth(r: ResourceRecord, rrs: seq<ResourceRecord>)
    requires rrs == [r] + [] + []
    ensures Times(rrs, r) == 1
  {
    assert rrs[..0] == [];
    assert Times(rrs[..0], r) == 0;
  }

  lemma InStepUnless(m: int, ttl: int)
    requires m >= 0 && ttl < TWO_TO_32
    ensures forall now :: InStep(Clock(now, m), ttl) <==> !(m > ttl * TICKS)
  {
  }

  /** A new answer starts in step with its answer and additional records, so that
      BoundedDrift applies to each it lists once, if and only if no SOA record raised the
      minimum TTL above the TTL of another record for good. The NS records of a referral
      play no part in the minimum. */
  lemma NewAnswerInStep(a: Answer, defaultTtl: nat, now: int)
    requires a.Valid()
    requires a.Time() == Clock(now, InitialMin(defaultTtl, Views(a.answerRecords), Views(a.additionalRecords)))
    ensures var all := Views(a.answerRecords) + Views(a.additionalRecords);
            (forall r :: r in a.answerRecords + a.additionalRecords ==> InStep(a.Time(), r.ttl)) <==>
            (forall i :: 0 <= i < |all| ==> !Overtaken(all, i))
  {
    var va, vb := Views(a.answerRecords), Views(a.additionalRecords);
    var rrs := a.answerRecords + a.additionalRecords;
    forall i: nat | i < |rrs|
      ensures InStep(a.Time(), rrs[i].ttl) <==> !Overtaken(va + vb, i)
    {
      MinimumAboveTtl(defaultTtl, va, vb, i);
      assert rrs[i] in a.Records() && (va + vb)[i] == rrs[i].View();
      InStepUnless(a.minTtl, rrs[i].ttl);
    }
    assert forall r :: r in rrs ==> exists i :: 0 <= i < |rrs| && rrs[i] == r;
    assert forall i :: 0 <= i < |rrs| ==> rrs[i] in rrs;
  }

  lemma {:induction false} FoldMinNonNegative(minSet: bool, m: int, rrs: seq<RRView>)
    requires m >= 0 && forall i :: 0 <= i < |rrs| ==> rrs[i].ttl >= 0
    ensures FoldMin(minSet, m, rrs).1 >= 0
    decreases |rrs|
  {
    if rrs != [] {
      FoldMinNonNegative(true, StepMin(if minSet then m else rrs[0].ttl * TICKS, rrs[0]), rrs[1..]);
    }
  }

  lemma InitialMinNonNegative(defaultTtl: nat, answers: seq<RRView>, additional: seq<RRView>)
    requires forall i :: 0 <= i < |answers| ==> answers[i].ttl >= 0
    requires forall i :: 0 <= i < |additional| ==> additional[i].ttl >= 0
    ensures InitialMin(defaultTtl, answers, additional) >= 0
  {
    FoldMinNonNegative(false, defaultTtl * TICKS, answers);
    var r := FoldMin(false, defaultTtl * TICKS, answers);
    FoldMinNonNegative(r.0, r.1, additional);
  }
}
