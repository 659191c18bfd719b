/** The recursive resolver's cache object: answers and referrals, their lookups, and the
    garbage collection of both. */
module RecursiveCache {
  import opened Dns
  import opened CacheAnswer
  import opened FifoCache

  // ---- Referrals on values ----

  /** Root referrals are bound outside the list; all others go through the list. */
  function WithReferral(s: Trio<Name>, name: Name, e: Entry): Trio<Name> {
    if IsRoot(name) then s.(entries := s.entries[ROOT := e]) else Add(s, name, e)
  }

  predicate Serves(s: Trio<Name>, name: Name, t: int) {
    name in s.entries && !ExpiredAt(s.entries[name].clock, t)
  }

  /** How many leading labels get_referral removes from the name before it finds a cached
      unexpired referral; times[i] is the clock reading after i removals. */
  function FindReferral(s: Trio<Name>, name: Name, times: seq<int>): Option<nat>
    requires |times| == |name| + 1
    decreases |name|
  {
    if Serves(s, name, times[0]) then Some(0)
    else if name == [] then None
    else
      match FindReferral(s, name[1..], times[1..])
      case None => None
      case Some(n) => Some(n + 1)
  }

  /** The search ends with the longest suffix that is cached and unexpired, and fails only
      when there is none. */
  lemma {:induction false} FindsLongestSuffix(s: Trio<Name>, name: Name, times: seq<int>)
    requires |times| == |name| + 1
    ensures match FindReferral(s, name, times)
            case Some(n) =>
              && n <= |name| && Serves(s, name[n..], times[n])
              && forall m :: 0 <= m < n ==> !Serves(s, name[m..], times[m])
            case None => forall m :: 0 <= m <= |name| ==> !Serves(s, name[m..], times[m])
    decreases |name|
  {
    assert name[0..] == name;
    if !Serves(s, name, times[0]) && name != [] {
      FindsLongestSuffix(s, name[1..], times[1..]);
      forall m | 1 <= m <= |name|
        ensures name[m..] == name[1..][m-1..] && times[m] == times[1..][m-1]
      {
      }
    }
  }

  /** With a fresh root entry the search cannot fail. */
  lemma RootMakesSearchSucceed(s: Trio<Name>, name: Name, times: seq<int>)
    requires |times| == |name| + 1 && Serves(s, ROOT, times[|name|])
    ensures FindReferral(s, name, times).Some?
  {
    FindsLongestSuffix(s, name, times);
    assert name[|name|..] == ROOT;
  }

  datatype ReferralAction =
    | AddRef(name: Name, e: Entry)
    | CollectRefs(times: seq<int>, budget: int)

  predicate CanDo(s: Trio<Name>, a: ReferralAction) {
    a.CollectRefs? ==> |a.times| == |s.list|
  }

  function Do(s: Trio<Name>, a: ReferralAction): Trio<Name>
    requires CanDo(s, a)
  {
    match a
    case AddRef(name, e) => WithReferral(s, name, e)
    case CollectRefs(times, budget) => Sweep(s, times, budget)
  }

  predicate CanRun(s: Trio<Name>, run: seq<ReferralAction>)
    decreases |run|
  {
    run == [] || (CanDo(s, run[0]) && CanRun(Do(s, run[0]), run[1..]))
  }

  function Exec(s: Trio<Name>, run: seq<ReferralAction>): Trio<Name>
    requires CanRun(s, run)
    decreases |run|
  {
    if run == [] then s else Exec(Do(s, run[0]), run[1..])
  }

  /** The root entry a run leaves: the last one added, or the one it started with. */
  function LastRoot(e: Entry, run: seq<ReferralAction>): Entry
    decreases |run|
  {
    if run == [] then e
    else LastRoot(if run[0].AddRef? && IsRoot(run[0].name) then run[0].e else e, run[1..])
  }

  ghost predicate NoRootListed(s: Trio<Name>) {
    forall i :: 0 <= i < |s.list| ==> !IsRoot(s.list[i].0)
  }

  lemma {:induction false} DropStaleKeepsOthers<K>(s: Trio<K>, times: seq<int>, k: K)
    requires |times| == |s.list|
    requires forall i :: 0 <= i < |s.list| ==> s.list[i].0 != k
    ensures var r := DropStale(s, times);
            && (k in r.entries <==> k in s.entries)
            && (k in s.entries ==> r.entries[k] == s.entries[k])
            && (forall i :: 0 <= i < |r.list| ==> r.list[i] in s.list)
    decreases |s.list|
  {
    if s.list != [] {
      var item := s.list[0];
      var dropped := Trio(s.entries, s.list[1..], s.count - item.1.records);
      if !Current(s.entries, item) {
        DropStaleKeepsOthers(dropped, times[1..], k);
      } else if ExpiredAt(item.1.clock, times[0]) {
        DropStaleKeepsOthers(dropped.(entries := s.entries - {item.0}), times[1..], k);
      } else {
        DropStaleKeepsOthers(s.(list := s.list[1..]), times[1..], k);
      }
    }
  }

  lemma {:induction false} EvictKeepsOthers<K>(s: Trio<K>, budget: int, k: K)
    requires forall i :: 0 <= i < |s.list| ==> s.list[i].0 != k
    ensures var r := EvictOldest(s, budget);
            && (k in r.entries <==> k in s.entries)
            && (k in s.entries ==> r.entries[k] == s.entries[k])
            && (forall i :: 0 <= i < |r.list| ==> r.list[i] in s.list)
    decreases |s.list|
  {
    if s.list != [] && s.count > budget {
      var item := s.list[0];
      EvictKeepsOthers(Trio(s.entries - {item.0}, s.list[1..], s.count - item.1.records), budget, k);
    }
  }

  /** No run of additions and sweeps, whatever their sequence numbers, removes the root
      entry once it is there: it is always the last root referral added. */
  lemma {:induction false} RootIsNeverRemoved(s: Trio<Name>, run: seq<ReferralAction>)
    requires NoRootListed(s) && ROOT in s.entries && CanRun(s, run)
    ensures var r := Exec(s, run);
            && NoRootListed(r) && ROOT in r.entries
            && r.entries[ROOT] == LastRoot(s.entries[ROOT], run)
    decreases |run|
  {
    if run != [] {
      var s' := Do(s, run[0]);
      if run[0].CollectRefs? {
        DropStaleKeepsOthers(s, run[0].times, ROOT);
        EvictKeepsOthers(DropStale(s, run[0].times), run[0].budget, ROOT);
      }
      RootIsNeverRemoved(s', run[1..]);
    }
  }

  /** So from then on a referral lookup always ends with the longest cached unexpired
      suffix of the question name, as long as the last root referral is fresh. */
  lemma ReferralLookupNeverFails(s: Trio<Name>, run: seq<ReferralAction>, name: Name, times: seq<int>)
    requires NoRootListed(s) && ROOT in s.entries && CanRun(s, run) && |times| == |name| + 1
    requires !ExpiredAt(LastRoot(s.entries[ROOT], run).clock, times[|name|])
    ensures var r := Exec(s, run);
            FindReferral(r, name, times).Some? &&
            var n := FindReferral(r, name, times).value;
            && n <= |name| && Serves(r, name[n..], times[n])
            && forall m :: 0 <= m < n ==> !Serves(r, name[m..], times[m])
  {
    RootIsNeverRemoved(s, run);
    RootMakesSearchSucceed(Exec(s, run), name, times);
    FindsLongestSuffix(Exec(s, run), name, times);
  }

  // ---- Cached objects as values ----

  ghost function EntryOf(a: Answer): Entry
    reads a`createTime, a`minTtl, a`numRecords
  {
    Entry(a.sequence, a.numRecords, a.Time())
  }

  ghost function EntriesOf<K>(m: map<K, Answer>): map<K, Entry>
    reads m.Values`createTime, m.Values`minTtl, m.Values`numRecords
  {
    map k | k in m :: EntryOf(m[k])
  }

  ghost function Listed<K>(list: seq<(K, Answer)>): set<Answer> {
    set i | 0 <= i < |list| :: list[i].1
  }

  ghost function ListOf<K>(list: seq<(K, Answer)>): (r: seq<(K, Entry)>)
    reads Listed(list)`createTime, Listed(list)`minTtl, Listed(list)`numRecords
    ensures |r| == |list|
    ensures forall i :: 0 <= i < |r| ==> r[i] == (list[i].0, EntryOf(list[i].1))
  {
    if list == [] then []
    else
      assert list[0].1 in Listed(list);
      assert forall i :: 0 <= i < |list[1..]| ==> list[1..][i] == list[i+1];
      [(list[0].0, EntryOf(list[0].1))] + ListOf(list[1..])
  }

  ghost function TrioOf<K>(m: map<K, Answer>, list: seq<(K, Answer)>, count: int): Trio<K>
    reads m.Values`createTime, m.Values`minTtl, m.Values`numRecords
    reads Listed(list)`createTime, Listed(list)`minTtl, Listed(list)`numRecords
  {
    Trio(EntriesOf(m), ListOf(list), count)
  }

  lemma EraseFirst<K>(m: map<K, Answer>, list: seq<(K, Answer)>, count: int)
    requires list != []
    ensures TrioOf(m - {list[0].0}, list[1..], count - list[0].1.numRecords) ==
            var s := TrioOf(m, list, count);
            Trio(s.entries - {s.list[0].0}, s.list[1..], s.count - s.list[0].1.records)
    ensures TrioOf(m, list[1..], count).list == ListOf(list)[1..]
  {
  }

  lemma AppendOf<K>(list: seq<(K, Answer)>, k: K, a: Answer)
    ensures ListOf(list + [(k, a)]) == ListOf(list) + [(k, EntryOf(a))]
  {
    var l := list + [(k, a)];
    assert forall i :: 0 <= i < |list| ==> l[i] == list[i];
    assert ListOf(l) == ListOf(list) + [(k, EntryOf(a))];
  }

  lemma AddOf<K>(m: map<K, Answer>, list: seq<(K, Answer)>, count: int, k: K, a: Answer)
    ensures TrioOf(m[k := a], list + [(k, a)], count + a.numRecords) ==
            Add(TrioOf(m, list, count), k, EntryOf(a))
    ensures Listed(list + [(k, a)]) == Listed(list) + {a}
  {
    AppendOf(list, k, a);
    assert EntriesOf(m[k := a]) == EntriesOf(m)[k := EntryOf(a)];
    var l := list + [(k, a)];
    assert l[|list|].1 == a;
    assert forall i :: 0 <= i < |list| ==> l[i] == list[i];
    assert forall b :: b in Listed(list) ==> b in Listed(l);
  }

  function Prefixed<K>(kept: seq<(K, Entry)>, s: Trio<K>): Trio<K> {
    s.(list := kept + s.list)
  }

  /** Where the first loop stands: `cur` is left to be judged, `kept` is what was kept. */
  ghost predicate Midway<K>(s: Trio<K>, times: seq<int>, cur: Trio<K>, left: seq<int>, kept: seq<(K, Entry)>)
    requires |times| == |s.list|
  {
    && |left| == |cur.list|
    && DropStale(s, times) == Prefixed(kept, DropStale(cur, left))
    && cur.count == Total(kept) + Total(cur.list)
  }

  function KeptItem<K>(cur: Trio<K>, t: int): seq<(K, Entry)>
    requires cur.list != []
  {
    if Survives(cur.entries, cur.list[0], t) then [cur.list[0]] else []
  }

  lemma PrefixStep<K>(cur: Trio<K>, left: seq<int>, kept: seq<(K, Entry)>)
    requires cur.list != [] && |left| == |cur.list|
    ensures Prefixed(kept, DropStale(cur, left)) ==
            Prefixed(kept + KeptItem(cur, left[0]), DropStale(AfterFirst(cur, left[0]), left[1..]))
  {
    DropStaleFirst(cur, left);
    var d, more := DropStale(AfterFirst(cur, left[0]), left[1..]), KeptItem(cur, left[0]);
    assert kept + (more + d.list) == kept + more + d.list;
    assert [] + d.list == d.list;
  }

  lemma CountStep<K>(cur: Trio<K>, t: int, kept: seq<(K, Entry)>)
    requires cur.list != []
    ensures AfterFirst(cur, t).count - Total(kept + KeptItem(cur, t)) - Total(AfterFirst(cur, t).list) ==
            cur.count - Total(kept) - Total(cur.list)
  {
    TotalConcat(kept, KeptItem(cur, t));
    assert [cur.list[0]][1..] == [];
    assert Total([cur.list[0]]) == cur.list[0].1.records;
  }

  lemma MidwayStep<K>(s: Trio<K>, times: seq<int>, cur: Trio<K>, left: seq<int>, kept: seq<(K, Entry)>)
    requires |times| == |s.list| && Midway(s, times, cur, left, kept) && cur.list != []
    ensures Midway(s, times, AfterFirst(cur, left[0]), left[1..], kept + KeptItem(cur, left[0]))
  {
    PrefixStep(cur, left, kept);
    CountStep(cur, left[0], kept);
  }

  lemma MidwayEnd<K>(s: Trio<K>, times: seq<int>, cur: Trio<K>, left: seq<int>, kept: seq<(K, Entry)>)
    requires |times| == |s.list| && Midway(s, times, cur, left, kept) && cur.list == []
    ensures DropStale(s, times) == cur.(list := kept) && cur.count == Total(kept)
  {
    assert kept + [] == kept;
  }

  /** One iteration of the first loop: erases the item, unbinds its key too, or keeps it. */
  method JudgeItem<K(==)>(m: map<K, Answer>, rest: seq<(K, Answer)>, count: nat, t: int, ghost s: Trio<K>)
    returns (m': map<K, Answer>, keep: bool, count': nat)
    requires s == TrioOf(m, rest, count) && rest != [] && s.count >= s.list[0].1.records
    ensures TrioOf(m', rest[1..], count') == AfterFirst(s, t)
    ensures keep == Survives(s.entries, s.list[0], t)
    ensures s.list[0] == (rest[0].0, EntryOf(rest[0].1))
    ensures forall k :: k in m' ==> k in m && m'[k] == m[k]
  {
    var item, a := rest[0], rest[0].1;
    EraseFirst(m, rest, count);
    if item.0 !in m || a.sequence != m[item.0].sequence {
      m', keep, count' := m, false, count - a.numRecords;
    } else if a.Expired(t) {
      m', keep, count' := m - {item.0}, false, count - a.numRecords;
    } else {
      m', keep, count' := m, true, count;
    }
  }

  /** The first loop of a garbage collection: steps over or erases one list item after the
      other. Item i of the list on entry is judged at times[i]. */
  method DropStaleItems<K(==)>(m: map<K, Answer>, list: seq<(K, Answer)>, count: nat, times: seq<int>, ghost s: Trio<K>)
    returns (m': map<K, Answer>, list': seq<(K, Answer)>, count': nat)
    requires s == TrioOf(m, list, count) && |times| == |s.list| && s.count == Total(s.list)
    ensures TrioOf(m', list', count') == DropStale(s, times)
    ensures count' == Total(DropStale(s, times).list)
    ensures forall k :: k in m' ==> k in m && m'[k] == m[k]
    ensures Listed(list') <= Listed(list)
  {
    m', list', count' := m, [], count;
    var rest, left := list, times;
    ghost var cur, kept := s, [];
    assert Prefixed([], DropStale(s, times)) == DropStale(s, times) by {
      assert [] + DropStale(s, times).list == DropStale(s, times).list;
    }
    while rest != []
      invariant cur == TrioOf(m', rest, count') && kept == ListOf(list')
      invariant Midway(s, times, cur, left, kept)
      invariant forall k :: k in m' ==> k in m && m'[k] == m[k]
      invariant Listed(list') + Listed(rest) <= Listed(list)
      decreases |rest|
    {
      MidwayStep(s, times, cur, left, kept);
      ListedStep(list', rest, rest[0]);
      AppendOf(list', rest[0].0, rest[0].1);
      var m1, keep, count1 := JudgeItem(m', rest, count', left[0], cur);
      kept := kept + KeptItem(cur, left[0]);
      if keep {
        list' := list' + [rest[0]];
      }
      cur := AfterFirst(cur, left[0]);
      m', count', rest, left := m1, count1, rest[1..], left[1..];
    }
    MidwayEnd(s, times, cur, left, kept);
  }

  lemma ListedStep<K>(list: seq<(K, Answer)>, rest: seq<(K, Answer)>, item: (K, Answer))
    requires rest != [] && item == rest[0]
    ensures Listed(rest) == {item.1} + Listed(rest[1..])
    ensures Listed(list + [item]) == Listed(list) + {item.1}
  {
    assert rest[0].1 in Listed(rest);
    forall b | b in Listed(rest[1..])
      ensures b in Listed(rest)
    {
      var i :| 0 <= i < |rest[1..]| && rest[1..][i].1 == b;
      assert rest[i+1].1 == b;
    }
    forall b | b in Listed(rest) && b != item.1
      ensures b in Listed(rest[1..])
    {
      var i :| 0 <= i < |rest| && rest[i].1 == b;
      assert rest[1..][i-1].1 == b;
    }
    var l := list + [item];
    assert l[|list|].1 == item.1;
    assert forall i :: 0 <= i < |list| ==> l[i] == list[i];
    assert forall b :: b in Listed(list) ==> b in Listed(l);
  }

  /** The second loop: evicts from the front while the counter exceeds the budget. */
  method EvictOldestItems<K(==)>(m: map<K, Answer>, list: seq<(K, Answer)>, count: nat, budget: nat, ghost s: Trio<K>)
    returns (m': map<K, Answer>, list': seq<(K, Answer)>, count': nat)
    requires s == TrioOf(m, list, count) && s.count == Total(s.list)
    ensures TrioOf(m', list', count') == EvictOldest(s, budget)
    ensures forall k :: k in m' ==> k in m && m'[k] == m[k]
    ensures Listed(list') <= Listed(list)
  {
    m', list', count' := m, list, count;
    ghost var cur := s;
    while list' != [] && count' > budget
      invariant cur == TrioOf(m', list', count') && cur.count == Total(cur.list)
      invariant EvictOldest(cur, budget) == EvictOldest(s, budget)
      invariant forall k :: k in m' ==> k in m && m'[k] == m[k]
      invariant Listed(list') <= Listed(list)
      decreases |list'|
    {
      EraseFirst(m', list', count');
      ListedStep([], list', list'[0]);
      count' := count' - list'[0].1.numRecords;
      m' := m' - {list'[0].0};
      list' := list'[1..];
      cur := Trio(cur.entries - {cur.list[0].0}, cur.list[1..], cur.count - cur.list[0].1.records);
    }
  }

  datatype Result<+T> = Found(value: T) | NoRootHints

  /** Both loops of a garbage collection. */
  method CollectItems<K(==)>(m: map<K, Answer>, list: seq<(K, Answer)>, count: nat, times: seq<int>, budget: nat, ghost s: Trio<K>)
    returns (m': map<K, Answer>, list': seq<(K, Answer)>, count': nat)
    requires s == TrioOf(m, list, count) && |times| == |s.list| && s.count == Total(s.list)
    ensures TrioOf(m', list', count') == Sweep(s, times, budget)
    ensures forall k :: k in m' ==> k in m && m'[k] == m[k]
    ensures m'.Values <= m.Values && Listed(list') <= Listed(list)
  {
    var m1, list1, count1 := DropStaleItems(m, list, count, times, s);
    m', list', count' := EvictOldestItems(m1, list1, count1, budget, DropStale(s, times));
  }

  ghost predicate AnswersAgree(s: Trio<Question>) {
    Inv(s, {})
  }

  ghost predicate ReferralsAgree(s: Trio<Name>) {
    Inv(s, {ROOT}) && NoRootListed(s)
  }

  ghost predicate OnePerSequence(cached: set<Answer>) {
    forall a, b :: a in cached && b in cached && a.sequence == b.sequence ==> a == b
  }

  // ---- The cache object ----

  class Cache {
    const maxAnswerRrs: nat
    const maxReferralRrs: nat
    const defaultTtl: nat
    var answers: map<Question, Answer>
    var answerList: seq<(Question, Answer)>
    var numAnswerRrs: nat
    var referrals: map<Name, Answer>
    var referralList: seq<(Name, Answer)>
    var numReferralRrs: nat

    ghost function Cached(): set<Answer>
      reads this
    {
      answers.Values + Listed(answerList) + referrals.Values + Listed(referralList)
    }

    ghost function Answers(): Trio<Question>
      reads this, Cached()`createTime, Cached()`minTtl, Cached()`numRecords
    {
      TrioOf(answers, answerList, numAnswerRrs)
    }

    ghost function Referrals(): Trio<Name>
      reads this, Cached()`createTime, Cached()`minTtl, Cached()`numRecords
    {
      TrioOf(referrals, referralList, numReferralRrs)
    }

    ghost predicate Valid()
      reads this, Cached()`createTime, Cached()`minTtl, Cached()`numRecords
    {
      && AnswersAgree(Answers())
      && ReferralsAgree(Referrals())
      && OnePerSequence(Cached())
    }

    constructor (maxAnswerRrs: nat, maxReferralRrs: nat, defaultTtl: nat)
      ensures Valid() && answers == map[] && answerList == [] && referrals == map[] && referralList == []
    {
      this.maxAnswerRrs, this.maxReferralRrs, this.defaultTtl := maxAnswerRrs, maxReferralRrs, defaultTtl;
      answers, answerList, numAnswerRrs := map[], [], 0;
      referrals, referralList, numReferralRrs := map[], [], 0;
    }

    /** No cached answer has the sequence number of a: the process counts them up. */
    ghost predicate IsNew(a: Answer)
      reads this
    {
      forall b :: b in Cached() ==> b.sequence != a.sequence
    }

    /** add_answer. The result is false for the exception an uncacheable type is refused
        with; an answer with a zero minimum TTL or a TKEY record is silently not cached.
        Only an answer whose sequence number is new keeps the cache in order. */
    method AddAnswer(q: Question, a: Answer) returns (ok: bool)
      requires Valid() && a.Valid()
      modifies this`answers, this`answerList, this`numAnswerRrs
      ensures old(IsNew(a)) ==> Valid()
      ensures var cacheable := a.minTtl >= TICKS && !a.HasAnswerRecord(TKEY);
              && (ok <==> !cacheable || a.atype != Referral)
              && Answers() == if cacheable && ok then Add(old(Answers()), q, EntryOf(a)) else old(Answers())
    {
      if a.GetMinTtl() == 0 {
        return true;
      }
      if a.HasAnswerRecord(TKEY) {
        return true;
      }
      if a.atype == Referral {
        return false;
      }
      ghost var before, cached, isNew := Answers(), Cached(), IsNew(a);
      if isNew {
        NewSequence(answers, answerList, numAnswerRrs, a);
        AddKeepsInv(before, {}, q, EntryOf(a));
      }
      StoreAnswer(q, a);
      if isNew {
        OnePerSequenceGrows(cached, a, Cached());
      }
      ok := true;
    }

    /** The part of add_answer done under the write lock. */
    method StoreAnswer(q: Question, a: Answer)
      modifies this`answers, this`answerList, this`numAnswerRrs
      ensures Answers() == Add(old(Answers()), q, EntryOf(a))
      ensures Referrals() == old(Referrals()) && Cached() <= old(Cached()) + {a}
    {
      AddOf(answers, answerList, numAnswerRrs, q, a);
      answers := answers[q := a];
      answerList := answerList + [(q, a)];
      numAnswerRrs := numAnswerRrs + a.numRecords;
    }

    /** add_referral: the root entry is bound outside the list. */
    method AddReferral(a: Answer)
      requires Valid() && a.Valid()
      modifies this`referrals, this`referralList, this`numReferralRrs
      ensures old(IsNew(a)) ==> Valid()
      ensures Referrals() == WithReferral(old(Referrals()), a.referralName, EntryOf(a))
      ensures Answers() == old(Answers())
      ensures IsRoot(a.referralName) ==> referrals == old(referrals)[ROOT := a]
    {
      ghost var before, cached, isNew := Referrals(), Cached(), IsNew(a);
      if isNew {
        NewSequence(referrals, referralList, numReferralRrs, a);
        AddReferralAgrees(before, a.referralName, EntryOf(a));
      }
      StoreReferral(a);
      if isNew {
        OnePerSequenceGrows(cached, a, Cached());
      }
    }

    /** The part of add_referral done under the write lock. */
    method StoreReferral(a: Answer)
      modifies this`referrals, this`referralList, this`numReferralRrs
      ensures Referrals() == WithReferral(old(Referrals()), a.referralName, EntryOf(a))
      ensures Answers() == old(Answers()) && Cached() <= old(Cached()) + {a}
      ensures IsRoot(a.referralName) ==> referrals == old(referrals)[ROOT := a]
    {
      if IsRoot(a.referralName) {
        assert EntriesOf(referrals[ROOT := a]) == EntriesOf(referrals)[ROOT := EntryOf(a)];
        referrals := referrals[ROOT := a];
      } else {
        AddOf(referrals, referralList, numReferralRrs, a.referralName, a);
        numReferralRrs := numReferralRrs + a.numRecords;
        referralList := referralList + [(a.referralName, a)];
        referrals := referrals[a.referralName := a];
      }
    }

    /** r is the referral for the longest cached unexpired suffix, or reports that there
        is none. */
    ghost predicate IsReferralFor(qname: Name, times: seq<int>, r: Result<Answer>)
      reads this, Cached()`createTime, Cached()`minTtl, Cached()`numRecords
      requires |times| == |qname| + 1
    {
      match FindReferral(Referrals(), qname, times)
      case Some(n) => n <= |qname| && qname[n..] in referrals && r == Found(referrals[qname[n..]])
      case None => r == NoRootHints
    }

    /** get_referral; times[i] is the clock reading when i labels have been removed. */
    method GetReferral(qname: Name, times: seq<int>) returns (r: Result<Answer>)
      requires |times| == |qname| + 1
      ensures IsReferralFor(qname, times, r)
    {
      FindsLongestSuffix(Referrals(), qname, times);
      var name, i := qname, 0;
      while true
        invariant 0 <= i <= |qname| && name == qname[i..]
        invariant forall m :: 0 <= m < i ==> !Serves(Referrals(), qname[m..], times[m])
        decreases |name|
      {
        if name in referrals && !referrals[name].Expired(times[i]) {
          assert Serves(Referrals(), qname[i..], times[i]);
          return Found(referrals[name]);
        }
        assert !Serves(Referrals(), qname[i..], times[i]);
        if |name| == 0 {
          break;
        }
        name, i := name[1..], i + 1;
      }
      FindsLongestSuffix(Referrals(), qname, times);
      r := NoRootHints;
    }

    ghost function Hit(q: Question): set<Answer>
      reads this`answers
    {
      if q in answers then {answers[q]} else {}
    }

    ghost function HitRecords(q: Question): set<ResourceRecord>
      reads this`answers, Hit(q)`answerRecords
    {
      if q in answers then RecordSet(answers[q].Records()) else {}
    }

    /** get_answer. The clock is read at t1 to judge expiry, at t2 to update the TTLs of a
        hit, and at `times` while looking for a referral. `sequence` numbers the failure
        answer made up for a miss without referral. */
    method GetAnswer(q: Question, referralRequested: bool, t1: int, t2: int, times: seq<int>, sequence: nat)
      returns (r: Result<Answer>)
      requires Valid() && (q in answers ==> answers[q].Valid()) && |times| == |q.qname| + 1
      modifies Hit(q)`createTime, Hit(q)`minTtl, HitRecords(q)`ttl
      ensures Valid()
      ensures match Lookup(old(Answers()), q, t1)
              case Some(e) =>
                && q in answers && r == Found(answers[q]) && answers[q].sequence == e.sequence
                && answers[q].UpToDate(t2)
                && Answers() == TouchAll(old(Answers()), e.sequence, Updated(t2))
                && Referrals() == TouchAll(old(Referrals()), e.sequence, Updated(t2))
              case None =>
                && Answers() == old(Answers()) && Referrals() == old(Referrals())
                && (referralRequested ==> IsReferralFor(q.qname, times, r))
                && (!referralRequested ==> r.Found? && fresh(r.value) && r.value.atype == Fail && r.value.Records() == [])
    {
      ghost var found := Lookup(Answers(), q, t1);
      if q in answers && !answers[q].Expired(t1) {
        assert found == Some(EntryOf(answers[q]));
        AnswerHit(q, t2);
        r := Found(answers[q]);
      } else {
        assert found == None;
        r := AnswerMiss(q, referralRequested, t2, times, sequence);
      }
    }

    /** A hit has its TTLs updated. */
    method AnswerHit(q: Question, now: int)
      requires Valid() && q in answers && answers[q].Valid()
      modifies Hit(q)`createTime, Hit(q)`minTtl, HitRecords(q)`ttl
      ensures Valid() && answers[q].UpToDate(now)
      ensures Answers() == TouchAll(old(Answers()), answers[q].sequence, Updated(now))
      ensures Referrals() == TouchAll(old(Referrals()), answers[q].sequence, Updated(now))
    {
      ghost var ans, refs := Answers(), Referrals();
      var a := answers[q];
      TouchAgrees(ans, refs, a.sequence, Updated(now));
      UpdateCached(a, now);
    }

    /** The answer for a question that is not cached or has expired. */
    method AnswerMiss(q: Question, referralRequested: bool, now: int, times: seq<int>, sequence: nat)
      returns (r: Result<Answer>)
      requires |times| == |q.qname| + 1
      ensures Answers() == old(Answers()) && Referrals() == old(Referrals()) && Cached() == old(Cached())
      ensures referralRequested ==> IsReferralFor(q.qname, times, r)
      ensures !referralRequested ==> r.Found? && fresh(r.value) && r.value.atype == Fail && r.value.Records() == []
    {
      if referralRequested {
        r := GetReferral(q.qname, times);
      } else {
        var f := new Answer(sequence, Fail, ROOT, [], [], [], now, defaultTtl * TICKS);
        r := Found(f);
      }
    }

    /** update_ttls on a cached answer, as seen from the cache: wherever the answer object
        is bound or listed, its clock ticks; nothing else changes. */
    method UpdateCached(a: Answer, now: int)
      requires a in Cached() && a.Valid() && OnePerSequence(Cached())
      modifies a`createTime, a`minTtl, RecordSet(a.Records())`ttl
      ensures Answers() == TouchAll(old(Answers()), a.sequence, Updated(now))
      ensures Referrals() == TouchAll(old(Referrals()), a.sequence, Updated(now))
      ensures Cached() == old(Cached()) && a.Valid() && a.Time() == Tick(old(a.Time()), now) && a.UpToDate(now)
    {
      a.UpdateTtls(now);
      forall b | b in Cached()
        ensures EntryOf(b) == Touch(old(EntryOf(b)), a.sequence, Updated(now))
      {
      }
      TouchedValues(answers, answerList, numAnswerRrs, old(Answers()), a.sequence, Updated(now));
      TouchedValues(referrals, referralList, numReferralRrs, old(Referrals()), a.sequence, Updated(now));
    }

    /** set_ttls on a cached answer, as seen from the cache. */
    method ResetCached(a: Answer, ttl: nat)
      requires a in Cached() && a.Valid() && OnePerSequence(Cached()) && ttl < TWO_TO_32
      modifies a`minTtl, RecordSet(a.Records())`ttl
      ensures Answers() == TouchAll(old(Answers()), a.sequence, ResetTo(ttl))
      ensures Referrals() == TouchAll(old(Referrals()), a.sequence, ResetTo(ttl))
      ensures Cached() == old(Cached()) && a.Valid() && a.Time() == Clock(old(a.createTime), ttl * TICKS)
      ensures forall r :: r in a.Records() ==> r.ttl == ttl
    {
      a.SetTtls(ttl);
      forall b | b in Cached()
        ensures EntryOf(b) == Touch(old(EntryOf(b)), a.sequence, ResetTo(ttl))
      {
      }
      TouchedValues(answers, answerList, numAnswerRrs, old(Answers()), a.sequence, ResetTo(ttl));
      TouchedValues(referrals, referralList, numReferralRrs, old(Referrals()), a.sequence, ResetTo(ttl));
    }

    /** garbage_collect_answers; times[i] is the clock reading for list item i. */
    method GarbageCollectAnswers(times: seq<int>)
      requires Valid() && |times| == |answerList|
      modifies this`answers, this`answerList, this`numAnswerRrs
      ensures Valid() && Answers() == Sweep(old(Answers()), times, maxAnswerRrs)
      ensures OneToOne(Answers(), {}) && numAnswerRrs <= maxAnswerRrs
      ensures Referrals() == old(Referrals())
    {
      ghost var before, cached := Answers(), Cached();
      SweepIs(before, {}, times, maxAnswerRrs);
      SweepAnswers(times);
      OnePerSequenceShrinks(cached, Cached());
    }

    method SetAnswers(m: map<Question, Answer>, list: seq<(Question, Answer)>, count: nat, ghost s: Trio<Question>)
      requires s == TrioOf(m, list, count)
      requires m.Values <= answers.Values && Listed(list) <= Listed(answerList)
      modifies this`answers, this`answerList, this`numAnswerRrs
      ensures Answers() == s && Referrals() == old(Referrals()) && Cached() <= old(Cached())
    {
      answers, answerList, numAnswerRrs := m, list, count;
    }

    method SweepAnswers(times: seq<int>)
      requires |times| == |answerList| && numAnswerRrs == Total(ListOf(answerList))
      modifies this`answers, this`answerList, this`numAnswerRrs
      ensures Answers() == Sweep(old(Answers()), times, maxAnswerRrs)
      ensures Referrals() == old(Referrals()) && Cached() <= old(Cached())
    {
      ghost var s := Sweep(Answers(), times, maxAnswerRrs);
      var m, l, n := CollectItems(answers, answerList, numAnswerRrs, times, maxAnswerRrs, Answers());
      SetAnswers(m, l, n, s);
    }

    /** garbage_collect_referrals; times[i] is the clock reading for list item i. */
    method GarbageCollectReferrals(times: seq<int>)
      requires Valid() && |times| == |referralList|
      modifies this`referrals, this`referralList, this`numReferralRrs
      ensures Valid() && Referrals() == Sweep(old(Referrals()), times, maxReferralRrs)
      ensures OneToOne(Referrals(), {ROOT}) && numReferralRrs <= maxReferralRrs
      ensures Answers() == old(Answers())
      ensures ROOT in old(referrals) ==> ROOT in referrals && referrals[ROOT] == old(referrals)[ROOT]
    {
      ghost var before, cached := Referrals(), Cached();
      SweepIs(before, {ROOT}, times, maxReferralRrs);
      SweepKeepsUnlistedRoot(before, times, maxReferralRrs);
      SweepReferrals(times);
      OnePerSequenceShrinks(cached, Cached());
    }

    method SetReferrals(m: map<Name, Answer>, list: seq<(Name, Answer)>, count: nat, ghost s: Trio<Name>)
      requires s == TrioOf(m, list, count)
      requires m.Values <= referrals.Values && Listed(list) <= Listed(referralList)
      requires forall k :: k in m ==> k in referrals && m[k] == referrals[k]
      modifies this`referrals, this`referralList, this`numReferralRrs
      ensures Referrals() == s && Answers() == old(Answers()) && Cached() <= old(Cached())
      ensures forall k :: k in referrals ==> k in old(referrals) && referrals[k] == old(referrals)[k]
    {
      referrals, referralList, numReferralRrs := m, list, count;
    }

    method SweepReferrals(times: seq<int>)
      requires |times| == |referralList| && numReferralRrs == Total(ListOf(referralList))
      modifies this`referrals, this`referralList, this`numReferralRrs
      ensures Referrals() == Sweep(old(Referrals()), times, maxReferralRrs)
      ensures Answers() == old(Answers()) && Cached() <= old(Cached())
      ensures forall k :: k in referrals ==> k in old(referrals) && referrals[k] == old(referrals)[k]
    {
      ghost var s := Sweep(Referrals(), times, maxReferralRrs);
      var m, l, n := CollectItems(referrals, referralList, numReferralRrs, times, maxReferralRrs, Referrals());
      SetReferrals(m, l, n, s);
    }
  }

  lemma OnePerSequenceGrows(cached: set<Answer>, a: Answer, cached': set<Answer>)
    requires OnePerSequence(cached) && cached' <= cached + {a}
    requires forall b :: b in cached ==> b.sequence != a.sequence
    ensures OnePerSequence(cached')
  {
  }

  lemma TouchAgrees(ans: Trio<Question>, refs: Trio<Name>, sequence: nat, how: Retiming)
    requires AnswersAgree(ans) && ReferralsAgree(refs)
    ensures AnswersAgree(TouchAll(ans, sequence, how)) && ReferralsAgree(TouchAll(refs, sequence, how))
  {
    TouchKeepsInv(ans, sequence, how, {});
    TouchKeepsInv(refs, sequence, how, {ROOT});
  }

  lemma OnePerSequenceShrinks(cached: set<Answer>, cached': set<Answer>)
    requires OnePerSequence(cached) && cached' <= cached
    ensures OnePerSequence(cached')
  {
  }

  lemma NewSequence<K>(m: map<K, Answer>, list: seq<(K, Answer)>, count: int, a: Answer)
    requires forall b :: b in Listed(list) ==> b.sequence != a.sequence
    ensures forall i :: 0 <= i < |list| ==> TrioOf(m, list, count).list[i].1.sequence != EntryOf(a).sequence
  {
    forall i | 0 <= i < |list|
      ensures ListOf(list)[i].1.sequence != a.sequence
    {
      assert list[i].1 in Listed(list);
    }
  }

  lemma AddReferralAgrees(s: Trio<Name>, name: Name, e: Entry)
    requires ReferralsAgree(s)
    requires forall i :: 0 <= i < |s.list| ==> s.list[i].1.sequence != e.sequence
    ensures ReferralsAgree(WithReferral(s, name, e))
  {
    if !IsRoot(name) {
      AddKeepsInv(s, {ROOT}, name, e);
    } else {
      var r := WithReferral(s, name, e);
      forall i | 0 <= i < |r.list| && Current(r.entries, r.list[i])
        ensures r.entries[r.list[i].0] == r.list[i].1
      {
        assert Current(s.entries, s.list[i]);
      }
    }
  }

  lemma SweepKeepsUnlistedRoot(s: Trio<Name>, times: seq<int>, budget: int)
    requires |times| == |s.list| && NoRootListed(s)
    ensures NoRootListed(Sweep(s, times, budget))
    ensures ROOT in s.entries ==> ROOT in Sweep(s, times, budget).entries
  {
    DropStaleKeepsOthers(s, times, ROOT);
    EvictKeepsOthers(DropStale(s, times), budget, ROOT);
  }

  lemma TouchedValues<K>(m: map<K, Answer>, list: seq<(K, Answer)>, count: int, before: Trio<K>, sequence: nat, how: Retiming)
    requires before.entries.Keys == m.Keys && |before.list| == |list| && before.count == count
    requires forall k :: k in m ==> EntryOf(m[k]) == Touch(before.entries[k], sequence, how)
    requires forall i :: 0 <= i < |list| ==>
               before.list[i].0 == list[i].0 && EntryOf(list[i].1) == Touch(before.list[i].1, sequence, how)
    ensures TrioOf(m, list, count) == TouchAll(before, sequence, how)
  {
    assert TrioOf(m, list, count).list == TouchAll(before, sequence, how).list;
    assert TrioOf(m, list, count).entries == TouchAll(before, sequence, how).entries;
  }
}
