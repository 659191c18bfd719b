/** The forwarding cache: answers kept for a limited time in a map, with a collection that
    drops the oldest ones once the map has grown to its configured size. */
module ForwardingCache {
  import opened Dns

  /** A cached reply, by identity. */
  type Message = nat

  /** An answer with the clock reading, in nanoseconds, at which it was added. */
  datatype Entry = Entry(time: int, message: Message)

  const TICKS_PER_SECOND: int := 1_000_000_000

  /** Conversion of a duration to whole seconds, towards zero. */
  function Seconds(d: int): int {
    if d >= 0 then d / TICKS_PER_SECOND else -((-d) / TICKS_PER_SECOND)
  }

  predicate TooOld(now: int, time: int, maxAge: int) {
    Seconds(now - time) > maxAge
  }

  /** An int converted to the 64-bit unsigned size type. */
  function AsSize(n: int): nat
    requires -0x8000_0000_0000_0000 <= n
  {
    if n >= 0 then n else 0x1_0000_0000_0000_0000 + n
  }

  /** Integer division towards zero. */
  function TruncatedDiv(a: int, b: int): int
    requires b > 0
  {
    if a >= 0 then a / b else -((-a) / b)
  }

  /** An age counts in whole seconds, and an answer is too old once a whole second more than
      the maximum age has passed. */
  lemma AgeInNumbers(now: int, time: int, maxAge: int)
    ensures now >= time ==> 1_000_000_000 * Seconds(now - time) <= now - time < 1_000_000_000 * (Seconds(now - time) + 1)
    ensures maxAge >= 0 ==> (TooOld(now, time, maxAge) <==> now - time >= 1_000_000_000 * (maxAge + 1))
    ensures maxAge < 0 ==> (TooOld(now, time, maxAge) <==> now - time > 1_000_000_000 * maxAge)
  {
    if now >= time {
      SecondsOfElapsed(now - time, maxAge);
    } else {
      SecondsOfElapsed(time - now, -maxAge - 1);
    }
  }

  lemma SecondsOfElapsed(d: nat, m: int)
    ensures 1_000_000_000 * Seconds(d) <= d < 1_000_000_000 * (Seconds(d) + 1)
    ensures Seconds(d) > m <==> d >= 1_000_000_000 * (m + 1)
    ensures d > 0 ==> Seconds(0 - d) == -Seconds(d)
  {
  }

  /** Dividing a count by a hundred and converting it to the size type. */
  lemma SizeInNumbers(product: int, t: int)
    requires -0x8000_0000 <= product < 0x8000_0000
    ensures product >= 0 ==> (AsSize(TruncatedDiv(product, 100)) == t <==> 100 * t <= product < 100 * t + 100)
    ensures product <= -100 ==>
              (AsSize(TruncatedDiv(product, 100)) == 18_446_744_073_709_551_616 - t <==> 100 * t <= -product < 100 * t + 100)
    ensures -100 < product < 0 ==> AsSize(TruncatedDiv(product, 100)) == 0
  {
  }

  // ---- Ranks: which timestamp a sorted vector of them would hold at an index ----

  function Before(answers: map<Question, Entry>, t: int): set<Question> {
    set q | q in answers && answers[q].time < t
  }

  function UpTo(answers: map<Question, Entry>, t: int): set<Question> {
    set q | q in answers && answers[q].time <= t
  }

  /** t is the k-th smallest timestamp, counting from zero. */
  ghost predicate IsRank(answers: map<Question, Entry>, t: int, k: int) {
    |Before(answers, t)| <= k < |UpTo(answers, t)|
  }

  lemma SubsetCard(a: set<Question>, b: set<Question>)
    requires a <= b
    ensures |a| <= |b|
  {
    assert b == a + (b - a);
  }

  lemma RankIsATime(answers: map<Question, Entry>, t: int, k: int) returns (q: Question)
    requires IsRank(answers, t, k)
    ensures q in answers && answers[q].time == t
  {
    assert Before(answers, t) != UpTo(answers, t);
    assert Before(answers, t) <= UpTo(answers, t);
    q :| q in UpTo(answers, t) && q !in Before(answers, t);
  }

  lemma RankIsUnique(answers: map<Question, Entry>, t: int, u: int, k: int)
    requires IsRank(answers, t, k) && IsRank(answers, u, k)
    ensures t == u
  {
    if t < u {
      SubsetCard(UpTo(answers, t), Before(answers, u));
    } else if u < t {
      SubsetCard(UpTo(answers, u), Before(answers, t));
    }
  }

  ghost predicate Enumerates(order: seq<Question>, answers: map<Question, Entry>) {
    && (forall i, j :: 0 <= i < j < |order| ==> order[i] != order[j])
    && (forall q :: q in order <==> q in answers)
  }

  ghost predicate Sorted(times: seq<int>) {
    forall i, j :: 0 <= i < j < |times| ==> times[i] <= times[j]
  }

  lemma {:induction false} PrefixCard(order: seq<Question>, k: nat)
    requires k <= |order|
    requires forall i, j :: 0 <= i < j < |order| ==> order[i] != order[j]
    ensures |set i | 0 <= i < k :: order[i]| == k
  {
    var s := set i | 0 <= i < k :: order[i];
    if k == 0 {
      assert s == {};
    } else {
      var s' := set i | 0 <= i < k - 1 :: order[i];
      PrefixCard(order, k - 1);
      assert s == s' + {order[k-1]};
    }
  }

  /** In a sorted vector of the timestamps, index k holds the timestamp of rank k. */
  lemma SortedGivesRank(answers: map<Question, Entry>, order: seq<Question>, times: seq<int>, k: nat)
    requires Enumerates(order, answers) && |times| == |order| && Sorted(times)
    requires forall i :: 0 <= i < |order| ==> order[i] in answers && times[i] == answers[order[i]].time
    requires k < |times|
    ensures IsRank(answers, times[k], k)
  {
    var t := times[k];
    var below := set i | 0 <= i < k :: order[i];
    PrefixCard(order, k);
    forall q | q in Before(answers, t)
      ensures q in below
    {
      var i :| 0 <= i < |order| && order[i] == q;
      assert times[i] < times[k];
    }
    SubsetCard(Before(answers, t), below);
    var upto := set i | 0 <= i < k + 1 :: order[i];
    PrefixCard(order, k + 1);
    SubsetCard(upto, UpTo(answers, t));
  }

  lemma EnumerationCard(answers: map<Question, Entry>, order: seq<Question>)
    requires Enumerates(order, answers)
    ensures |order| == |answers|
  {
    PrefixCard(order, |order|);
    assert (set i | 0 <= i < |order| :: order[i]) == answers.Keys;
  }

  // ---- What a collection leaves behind ----

  function Newer(answers: map<Question, Entry>, oldest: int): map<Question, Entry> {
    map q | q in answers && answers[q].time > oldest :: answers[q]
  }

  ghost predicate Collected(before: map<Question, Entry>, after: map<Question, Entry>, target: int) {
    if |before| < target then after == before
    else if target <= 0 then after == map[]
    else exists oldest :: IsRank(before, oldest, |before| - target) && after == Newer(before, oldest)
  }

  /** The timestamp at index `target` exists and is within the maximum age. */
  ghost predicate TargetFresh(answers: map<Question, Entry>, target: int, now: int, maxAge: int) {
    exists t :: IsRank(answers, t, target) && !TooOld(now, t, maxAge)
  }

  /** A collection leaves fewer than `target` answers, all strictly newer than every
      answer it evicted, and never changes an answer it keeps. */
  lemma CollectionKeepsNewest(before: map<Question, Entry>, after: map<Question, Entry>, target: int)
    requires Collected(before, after, target) && target <= |before|
    ensures |after| < target || |after| == 0
    ensures forall q :: q in after ==> q in before && after[q] == before[q]
    ensures forall q, r :: q in after && r in before && r !in after ==> before[r].time < before[q].time
  {
    if target > 0 {
      var oldest :| IsRank(before, oldest, |before| - target) && after == Newer(before, oldest);
      assert before.Keys == after.Keys + UpTo(before, oldest);
      assert after.Keys !! UpTo(before, oldest);
    }
  }

  ghost predicate DistinctTimes(answers: map<Question, Entry>) {
    forall q, r :: q in answers && r in answers && q != r ==> answers[q].time != answers[r].time
  }

  /** When no two answers have the same timestamp, a collection leaves one answer fewer than
      its target. */
  lemma CollectionSize(before: map<Question, Entry>, after: map<Question, Entry>, target: int)
    requires DistinctTimes(before) && Collected(before, after, target)
    requires 0 < target <= |before|
    ensures |after| == target - 1
  {
    var oldest :| IsRank(before, oldest, |before| - target) && after == Newer(before, oldest);
    OneMore(before, oldest);
    assert before.Keys == after.Keys + UpTo(before, oldest);
    assert after.Keys !! UpTo(before, oldest);
    assert |after.Keys| == |after|;
  }

  lemma OneMore(answers: map<Question, Entry>, t: int)
    requires DistinctTimes(answers)
    ensures |UpTo(answers, t)| <= |Before(answers, t)| + 1
  {
    var b, u := Before(answers, t), UpTo(answers, t);
    if u != b {
      var q :| q in u && q !in b;
      assert u == b + {q};
    }
  }

  lemma LatestExists(answers: map<Question, Entry>) returns (q: Question)
    requires answers != map[]
    ensures q in answers && forall r :: r in answers ==> answers[r].time <= answers[q].time
    decreases |answers|
  {
    q :| q in answers;
    var rest := answers - {q};
    assert answers.Keys == rest.Keys + {q};
    if rest != map[] {
      var p := LatestExists(rest);
      if answers[p].time > answers[q].time {
        q := p;
      }
    }
  }

  /** There is a timestamp of every rank below the number of answers. */
  lemma {:induction false} RankExists(answers: map<Question, Entry>, k: nat)
    requires k < |answers|
    ensures exists t :: IsRank(answers, t, k)
    decreases |answers|
  {
    var q := LatestExists(answers);
    var rest := answers - {q};
    assert answers.Keys == rest.Keys + {q} && |rest.Keys| == |rest| && |answers.Keys| == |answers|;
    if k == |rest| {
      SubsetCard(Before(answers, answers[q].time), rest.Keys);
      assert UpTo(answers, answers[q].time) == answers.Keys;
      assert IsRank(answers, answers[q].time, k);
    } else {
      RankExists(rest, k);
      var t :| IsRank(rest, t, k);
      LatestKeepsRank(answers, q, t, k);
    }
  }

  lemma LatestKeepsRank(answers: map<Question, Entry>, q: Question, t: int, k: nat)
    requires q in answers && forall r :: r in answers ==> answers[r].time <= answers[q].time
    requires IsRank(answers - {q}, t, k)
    ensures IsRank(answers, t, k)
  {
    var rest := answers - {q};
    var p := RankIsATime(rest, t, k);
    assert p in answers && rest[p].time == answers[p].time;
    SubsetCard(UpTo(rest, t), UpTo(answers, t));
    assert Before(answers, t) == Before(rest, t);
  }

  ghost predicate NoneTooOld(answers: map<Question, Entry>, now: int, maxAge: int) {
    forall q :: q in answers ==> !TooOld(now, answers[q].time, maxAge)
  }

  /** While no answer is too old, a collection that keeps fewer answers than there are finds
      its timestamp. */
  lemma FreshTarget(answers: map<Question, Entry>, target: nat, now: int, maxAge: int)
    requires target < |answers| && NoneTooOld(answers, now, maxAge)
    ensures TargetFresh(answers, target, now, maxAge)
  {
    RankExists(answers, target);
    var t :| IsRank(answers, t, target);
    var p := RankIsATime(answers, t, target);
  }

  /** What adding an answer that makes the map `grown` does, in numbers: below the maximum
      nothing is dropped; otherwise the percentage of the maximum, rounded down, is the target. */
  ghost predicate Added(grown: map<Question, Entry>, after: map<Question, Entry>, defined: bool,
                        maximum: nat, pct: nat, now: int, maxAge: int)
  {
    if |grown| < maximum then defined && after == grown
    else CollectedAt(grown, after, defined, maximum, pct, now, maxAge)
  }

  ghost predicate CollectedAt(grown: map<Question, Entry>, after: map<Question, Entry>, defined: bool,
                              maximum: nat, pct: nat, now: int, maxAge: int)
  {
    forall t :: IsPercentage(t, pct, maximum) ==>
      && (defined <==> |grown| < t || TargetFresh(grown, t, now, maxAge))
      && (defined ==> Collected(grown, after, t))
  }

  /** t is pct percent of n, rounded down. */
  predicate IsPercentage(t: int, pct: nat, n: nat) {
    100 * t <= n * pct < 100 * t + 100
  }

  /** So with different timestamps and none too old, an addition that fills the cache leaves
      one answer fewer than the percentage of the maximum. */
  lemma AddedSize(grown: map<Question, Entry>, after: map<Question, Entry>, defined: bool,
                  maximum: nat, pct: nat, now: int, maxAge: int, t: nat)
    requires Added(grown, after, defined, maximum, pct, now, maxAge) && |grown| >= maximum
    requires DistinctTimes(grown) && NoneTooOld(grown, now, maxAge)
    requires IsPercentage(t, pct, maximum) && 0 < t < |grown|
    ensures defined && |after| == t - 1
    ensures forall q, r :: q in after && r in grown && r !in after ==> grown[r].time < grown[q].time
  {
    FreshTarget(grown, t, now, maxAge);
    CollectionSize(grown, after, t);
    CollectionKeepsNewest(grown, after, t);
  }

  // ---- The cache object ----

  class Cache {
    const maxAgeSeconds: int
    const maxEntries: int
    const garbageCollectPct: int
    var answers: map<Question, Entry>
    /** The last answer added per question, whether or not it is still cached. */
    ghost var lastAdded: map<Question, Entry>

    ghost predicate Valid()
      reads this
    {
      && -0x8000_0000 <= maxEntries < 0x8000_0000
      && -0x8000_0000 <= maxEntries * garbageCollectPct < 0x8000_0000
      && forall q :: q in answers ==> q in lastAdded && answers[q] == lastAdded[q]
    }

    constructor (maxAge: int, entries: int, pct: int)
      requires -0x8000_0000 <= entries < 0x8000_0000
      requires -0x8000_0000 <= entries * pct < 0x8000_0000
      ensures Valid() && answers == map[] && lastAdded == map[]
      ensures maxAgeSeconds == maxAge && maxEntries == entries && garbageCollectPct == pct
    {
      maxAgeSeconds, maxEntries, garbageCollectPct := maxAge, entries, pct;
      answers, lastAdded := map[], map[];
    }

    ghost function Target(): (t: nat)
      reads this
      requires Valid()
      ensures maxEntries >= 0 && garbageCollectPct >= 0 ==> IsPercentage(t, garbageCollectPct, maxEntries)
    {
      AsSize(TruncatedDiv(maxEntries * garbageCollectPct, 100))
    }

    /** Adds an answer; `now` and `gcNow` are the two clock readings of the call. The result
        says whether the collection, if one ran, stayed inside its vector of timestamps. */
    method Add(q: Question, a: Message, now: int, gcNow: int) returns (defined: bool)
      requires Valid()
      modifies this
      ensures Valid() && lastAdded == old(lastAdded)[q := Entry(now, a)]
      ensures var grown := old(answers)[q := Entry(now, a)];
              if |grown| < AsSize(maxEntries) then defined && answers == grown
              else
                && (defined <==> |grown| < Target() || TargetFresh(grown, Target(), gcNow, maxAgeSeconds))
                && (defined ==> Collected(grown, answers, Target()))
      ensures maxEntries < 0 && |old(answers)| < 0xFFFF_FFFF_8000_0000 - 1 ==>
                defined && answers == old(answers)[q := Entry(now, a)]
      ensures maxEntries >= 0 && garbageCollectPct >= 0 ==>
                Added(old(answers)[q := Entry(now, a)], answers, defined, maxEntries, garbageCollectPct, gcNow, maxAgeSeconds)
      ensures defined && maxEntries > 0 && 0 <= garbageCollectPct < 100 ==> |answers| < maxEntries
      ensures maxEntries > 0 && 0 <= garbageCollectPct < 100 ==>
                NoneTooOld(old(answers)[q := Entry(now, a)], gcNow, maxAgeSeconds) ==> defined
    {
      answers := answers[q := Entry(now, a)];
      lastAdded := lastAdded[q := Entry(now, a)];
      defined := true;
      if |answers| >= AsSize(maxEntries) {
        ghost var grown := answers;
        defined := GarbageCollect(gcNow);
        if maxEntries > 0 && 0 <= garbageCollectPct < 100 {
          TargetBelowMaximum();
          if defined {
            CollectionKeepsNewest(grown, answers, Target());
          }
          if NoneTooOld(grown, gcNow, maxAgeSeconds) {
            FreshTarget(grown, Target(), gcNow, maxAgeSeconds);
          }
        }
      }
    }

    lemma TargetBelowMaximum()
      requires Valid() && maxEntries > 0 && 0 <= garbageCollectPct < 100
      ensures Target() < maxEntries
    {
      assert maxEntries * garbageCollectPct <= maxEntries * 99;
      assert 0 <= maxEntries * garbageCollectPct;
    }

    lemma CollectedInNumbers(before: map<Question, Entry>, after: map<Question, Entry>, defined: bool, now: int)
      requires Valid() && maxEntries >= 0 && garbageCollectPct >= 0
      requires defined <==> |before| < Target() || TargetFresh(before, Target(), now, maxAgeSeconds)
      requires defined ==> Collected(before, after, Target())
      ensures CollectedAt(before, after, defined, maxEntries, garbageCollectPct, now, maxAgeSeconds)
    {
      forall t | IsPercentage(t, garbageCollectPct, maxEntries)
        ensures t == Target()
      {
      }
    }

    /** Drops the oldest answers. When the result is false the loop that looks for a
        fresh enough timestamp has run off the front of the vector; the cache is then
        left alone here, while the original's behaviour is undefined. */
    method GarbageCollect(now: int) returns (defined: bool)
      requires Valid()
      modifies this`answers
      ensures Valid()
      ensures defined <==> |old(answers)| < Target() || TargetFresh(old(answers), Target(), now, maxAgeSeconds)
      ensures defined ==> Collected(old(answers), answers, Target())
      ensures !defined ==> answers == old(answers)
      ensures maxEntries >= 0 && garbageCollectPct >= 0 ==>
                CollectedAt(old(answers), answers, defined, maxEntries, garbageCollectPct, now, maxAgeSeconds)
    {
      var target: int := AsSize(TruncatedDiv(maxEntries * garbageCollectPct, 100));
      defined := true;
      if |answers| >= target {
        defined := KeepNewest(target, now);
      }
      if maxEntries >= 0 && garbageCollectPct >= 0 {
        CollectedInNumbers(old(answers), answers, defined, now);
      }
    }

    /** The collection once the map has reached its target. */
    method KeepNewest(start: nat, now: int) returns (defined: bool)
      requires Valid() && start <= |answers|
      modifies this`answers
      ensures Valid()
      ensures defined <==> TargetFresh(old(answers), start, now, maxAgeSeconds)
      ensures defined ==> Collected(old(answers), answers, start)
      ensures !defined ==> answers == old(answers)
    {
      var times, order := SortedTimes(answers);
      EnumerationCard(answers, order);
      if start == |times| {
        NoRankBeyond(answers, start);
        return false;
      }
      SortedGivesRank(answers, order, times, start);
      RankDecides(answers, start, times[start], now, maxAgeSeconds);
      var target := StepToFresh(times, start, now, maxAgeSeconds);
      if target < 0 {
        return false;
      }
      defined := true;
      if target <= 0 {
        answers := map[];
      } else {
        var oldest := times[|times| - target];
        SortedGivesRank(answers, order, times, |times| - target);
        answers := map q | q in answers && answers[q].time > oldest :: answers[q];
        assert answers == Newer(old(answers), oldest);
      }
    }

    /** The answer for a question with its age, dropping it when it is too old. */
    method Get(q: Question, now: int) returns (answer: Option<Message>, ageSeconds: int)
      requires Valid()
      modifies this`answers
      ensures Valid()
      ensures answer.Some? <==> q in old(answers) && !TooOld(now, old(answers)[q].time, maxAgeSeconds)
      ensures answer.Some? ==> q in lastAdded && answer.value == lastAdded[q].message
      ensures answer.Some? ==> ageSeconds == Seconds(now - lastAdded[q].time) <= maxAgeSeconds
      ensures answers == if answer.None? then old(answers) - {q} else old(answers)
    {
      ageSeconds := 0;
      if q !in answers {
        answer := None;
      } else {
        ageSeconds := Seconds(now - answers[q].time);
        if ageSeconds > maxAgeSeconds {
          answers := answers - {q};
          answer := None;
        } else {
          answer := Some(answers[q].message);
        }
      }
    }
  }

  lemma NoRankBeyond(answers: map<Question, Entry>, k: int)
    requires k >= |answers|
    ensures forall t :: !IsRank(answers, t, k)
  {
    forall t
      ensures !IsRank(answers, t, k)
    {
      SubsetCard(UpTo(answers, t), answers.Keys);
    }
  }

  lemma RankDecides(answers: map<Question, Entry>, target: int, t: int, now: int, maxAge: int)
    requires IsRank(answers, t, target)
    ensures TargetFresh(answers, target, now, maxAge) <==> !TooOld(now, t, maxAge)
  {
    if TargetFresh(answers, target, now, maxAge) {
      var u :| IsRank(answers, u, target) && !TooOld(now, u, maxAge);
      RankIsUnique(answers, t, u, target);
    }
  }

  /** The loop that steps `target` down while the timestamp there is too old. In a sorted
      vector it only ever reaches older timestamps, so it stops inside the vector exactly
      when it need not step at all; -1 means it ran off the front. */
  method StepToFresh(times: seq<int>, start: nat, now: int, maxAge: int) returns (target: int)
    requires Sorted(times) && start < |times|
    ensures target == if TooOld(now, times[start], maxAge) then -1 else start
  {
    target := start;
    while 0 <= target && TooOld(now, times[target], maxAge)
      invariant -1 <= target <= start
      invariant target < start ==> TooOld(now, times[start], maxAge)
      decreases target + 1
    {
      target := target - 1;
    }
  }

  /** `order` lists the questions in `keys`, each once, by ascending timestamp. */
  ghost predicate Lists(order: seq<Question>, times: seq<int>, answers: map<Question, Entry>, keys: set<Question>) {
    && |times| == |order| && Sorted(times) && keys <= answers.Keys
    && (forall i, j :: 0 <= i < j < |order| ==> order[i] != order[j])
    && (forall q :: q in order <==> q in keys)
    && (forall i :: 0 <= i < |order| ==> order[i] in answers && times[i] == answers[order[i]].time)
  }

  lemma InsertSorted(times: seq<int>, at: nat, t: int)
    requires Sorted(times) && at <= |times|
    requires forall i :: 0 <= i < at ==> times[i] <= t
    requires forall i :: at <= i < |times| ==> t <= times[i]
    ensures Sorted(times[..at] + [t] + times[at..])
  {
  }

  lemma InsertDistinct(order: seq<Question>, at: nat, q: Question)
    requires forall i, j :: 0 <= i < j < |order| ==> order[i] != order[j]
    requires q !in order && at <= |order|
    ensures var order' := order[..at] + [q] + order[at..];
            && (forall i, j :: 0 <= i < j < |order'| ==> order'[i] != order'[j])
            && (forall r :: r in order' <==> r in order || r == q)
  {
    var order' := order[..at] + [q] + order[at..];
    forall r
      ensures r in order' <==> r in order || r == q
    {
      assert order == order[..at] + order[at..];
    }
    forall i, j | 0 <= i < j < |order'|
      ensures order'[i] != order'[j]
    {
      var i0, j0 := if i < at then i else i - 1, if j < at then j else j - 1;
      assert i != at ==> order'[i] == order[i0];
      assert j != at ==> order'[j] == order[j0];
    }
  }

  lemma InsertInto(order: seq<Question>, times: seq<int>, answers: map<Question, Entry>, keys: set<Question>, q: Question, at: nat)
    requires Lists(order, times, answers, keys) && q in answers && q !in keys && at <= |times|
    requires forall i :: 0 <= i < at ==> times[i] <= answers[q].time
    requires forall i :: at <= i < |times| ==> answers[q].time <= times[i]
    ensures Lists(order[..at] + [q] + order[at..], times[..at] + [answers[q].time] + times[at..], answers, keys + {q})
  {
    InsertSorted(times, at, answers[q].time);
    InsertDistinct(order, at, q);
  }

  /** The timestamps of all answers in ascending order. */
  method SortedTimes(answers: map<Question, Entry>) returns (times: seq<int>, ghost order: seq<Question>)
    ensures Enumerates(order, answers) && |times| == |order| && Sorted(times)
    ensures forall i :: 0 <= i < |order| ==> order[i] in answers && times[i] == answers[order[i]].time
  {
    var rest := answers.Keys;
    times, order := [], [];
    while rest != {}
      invariant rest <= answers.Keys && Lists(order, times, answers, answers.Keys - rest)
      decreases rest
    {
      var q :| q in rest;
      var t := answers[q].time;
      var at := InsertionPoint(times, t);
      InsertInto(order, times, answers, answers.Keys - rest, q, at);
      assert answers.Keys - rest + {q} == answers.Keys - (rest - {q});
      rest := rest - {q};
      times := times[..at] + [t] + times[at..];
      order := order[..at] + [q] + order[at..];
    }
  }

  method InsertionPoint(times: seq<int>, t: int) returns (at: nat)
    requires Sorted(times)
    ensures at <= |times|
    ensures forall i :: 0 <= i < at ==> times[i] <= t
    ensures forall i :: at <= i < |times| ==> t <= times[i]
  {
    at := 0;
    while at < |times| && times[at] <= t
      invariant at <= |times| && forall i :: 0 <= i < at ==> times[i] <= t
    {
      at := at + 1;
    }
  }

  // ---- A collection that runs off its vector ----

  /** Three old answers and a new one. */
  function ThreeOldOneNew(p: Question, q: Question, r: Question, s: Question): map<Question, Entry> {
    map[p := Entry(0, 1), q := Entry(1, 2), r := Entry(2, 3), s := Entry(600 * TICKS_PER_SECOND, 4)]
  }

  predicate Different(p: Question, q: Question, r: Question, s: Question) {
    p != q && p != r && p != s && q != r && q != s && r != s
  }

  lemma ThirdIsOld(p: Question, q: Question, r: Question, s: Question)
    requires Different(p, q, r, s)
    ensures |ThreeOldOneNew(p, q, r, s)| == 4
    ensures !TargetFresh(ThreeOldOneNew(p, q, r, s), 2, 600 * TICKS_PER_SECOND, 60)
  {
    var answers := ThreeOldOneNew(p, q, r, s);
    assert answers.Keys == {p, q, r, s};
    forall t | IsRank(answers, t, 2)
      ensures t <= 2
    {
      if t > 2 {
        SubsetCard({p, q, r}, Before(answers, t));
      }
    }
  }

  /** With at most four answers, half of them kept, and a maximum age of a minute: three
      answers, ten minutes of silence and a fourth answer leave the collection no timestamp
      it could stop at. */
  method SilenceUndefinesCollection(p: Question, q: Question, r: Question, s: Question) returns (c: Cache, defined: bool)
    requires Different(p, q, r, s)
    ensures fresh(c) && c.maxEntries == 4 && c.garbageCollectPct == 50 && c.maxAgeSeconds == 60
    ensures c.lastAdded == ThreeOldOneNew(p, q, r, s) && !defined
  {
    c := new Cache(60, 4, 50);
    defined := c.Add(p, 1, 0, 0);
    defined := c.Add(q, 2, 1, 1);
    defined := c.Add(r, 3, 2, 2);
    ThirdIsOld(p, q, r, s);
    assert c.answers == map[p := Entry(0, 1), q := Entry(1, 2), r := Entry(2, 3)];
    assert c.answers[s := Entry(600 * TICKS_PER_SECOND, 4)] == ThreeOldOneNew(p, q, r, s);
    defined := c.Add(s, 4, 600 * TICKS_PER_SECOND, 600 * TICKS_PER_SECOND);
  }
}
