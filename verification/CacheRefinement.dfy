/** Over any run of additions, lookups and sweeps the trio answers like a plain map from
    keys to the last entry accepted for them. */
module CacheRefinement {
  import opened CacheAnswer
  import opened FifoCache

  /** The trio beside its history: the last entry accepted per key as it was accepted, the
      sequence numbers used so far, the ones evicted for size, and the last clock reading. */
  datatype World<K(==)> = World(
    trio: Trio<K>,
    last: map<K, Entry>,
    used: set<nat>,
    evicted: set<nat>,
    now: int)

  /** LookUp reads the clock at t1 to judge expiry and again at t2 to update the TTLs.
      Collect judges list item i at times[i] and ends by `end`. */
  datatype Action<K> =
    | Accept(k: K, e: Entry)
    | LookUp(k: K, t1: int, t2: int)
    | Collect(times: seq<int>, end: int, budget: int)

  predicate CanDo<K>(w: World<K>, a: Action<K>) {
    match a
    case Accept(_, e) => e.sequence !in w.used
    case LookUp(_, t1, t2) => w.now < t1 <= t2
    case Collect(times, end, _) =>
      |times| == |w.trio.list| && w.now <= end &&
      forall i :: 0 <= i < |times| ==> w.now <= times[i] <= end
  }

  function Sequences<K>(list: seq<(K, Entry)>): set<nat> {
    set i | 0 <= i < |list| :: list[i].1.sequence
  }

  function Do<K>(w: World<K>, a: Action<K>): World<K>
    requires CanDo(w, a)
  {
    match a
    case Accept(k, e) =>
      w.(trio := Add(w.trio, k, e), last := w.last[k := e], used := w.used + {e.sequence})
    case LookUp(k, t1, t2) =>
      var hit := Lookup(w.trio, k, t1);
      w.(trio := if hit.Some? then TouchAll(w.trio, hit.value.sequence, Updated(t2)) else w.trio, now := t2)
    case Collect(times, end, budget) =>
      var alive := DropStale(w.trio, times).list;
      w.(trio := Sweep(w.trio, times, budget),
         evicted := w.evicted + Sequences(alive[..Evicted(alive, budget)]),
         now := end)
  }

  predicate CanRun<K>(w: World<K>, run: seq<Action<K>>)
    decreases |run|
  {
    run == [] || (CanDo(w, run[0]) && CanRun(Do(w, run[0]), run[1..]))
  }

  function Exec<K>(w: World<K>, run: seq<Action<K>>): World<K>
    requires CanRun(w, run)
    decreases |run|
  {
    if run == [] then w else Exec(Do(w, run[0]), run[1..])
  }

  function Empty<K(==)>(now: int): World<K> {
    World(Trio(map[], [], 0), map[], {}, {}, now)
  }

  /** Two clocks that no reading after `now` can tell apart. */
  predicate SameLater(c: Clock, d: Clock, now: int) {
    Deadline(c) == Deadline(d) || (Deadline(c) <= now && Deadline(d) <= now)
  }

  /** The trio is in order, and all sequence numbers in it and in the evicted set are used. */
  ghost predicate ListLinked<K(!new)>(w: World<K>) {
    && Inv(w.trio, {}) && w.evicted <= w.used
    && (forall i :: 0 <= i < |w.trio.list| ==> w.trio.list[i].1.sequence in w.used)
  }

  /** Every accepted entry has a sequence number of its own. */
  ghost predicate LastDistinct<K(!new)>(w: World<K>) {
    && (forall k :: k in w.last ==> w.last[k].sequence in w.used)
    && (forall k, l :: k in w.last && l in w.last && k != l ==> w.last[k].sequence != w.last[l].sequence)
  }

  /** What is bound is the last accepted entry, and what is not was evicted or has expired. */
  ghost predicate EntriesLinked<K(!new)>(w: World<K>) {
    && (forall k :: k in w.trio.entries ==>
          && k in w.last && w.trio.entries[k].sequence == w.last[k].sequence
          && w.last[k].sequence !in w.evicted
          && SameLater(w.trio.entries[k].clock, w.last[k].clock, w.now))
    && (forall k :: k in w.last && k !in w.trio.entries ==>
          w.last[k].sequence in w.evicted || Deadline(w.last[k].clock) <= w.now)
  }

  /** What links the trio to the plain map. */
  ghost predicate Linked<K(!new)>(w: World<K>) {
    ListLinked(w) && LastDistinct(w) && EntriesLinked(w)
  }

  lemma AcceptKeepsLink<K(!new)>(w: World<K>, k: K, e: Entry)
    requires Linked(w) && CanDo(w, Accept(k, e))
    ensures Linked(Do(w, Accept(k, e)))
  {
    AddKeepsInv(w.trio, {}, k, e);
  }

  lemma LookUpKeepsLink<K(!new)>(w: World<K>, k: K, t1: int, t2: int)
    requires Linked(w) && CanDo(w, LookUp(k, t1, t2))
    ensures Linked(Do(w, LookUp(k, t1, t2)))
  {
    var hit := Lookup(w.trio, k, t1);
    if hit.Some? {
      TouchKeepsInv(w.trio, hit.value.sequence, Updated(t2), {});
      forall k | k in w.trio.entries
        ensures SameLater(Touch(w.trio.entries[k], hit.value.sequence, Updated(t2)).clock, w.last[k].clock, t2)
      {
        TickMovesDeadline(w.trio.entries[k].clock, t2);
      }
    }
  }

  lemma DropStaleKeepsList<K(!new)>(w: World<K>, times: seq<int>, end: int)
    requires Linked(w) && CanDo(w, Collect(times, end, 0))
    ensures ListLinked(w.(trio := DropStale(w.trio, times), now := end))
  {
    var d := DropStale(w.trio, times);
    DropStaleMatches(w.trio, {}, times);
    DropStaleIs(w.trio, times);
    forall i | 0 <= i < |d.list|
      ensures d.list[i].1.sequence in w.used
    {
      SurvivorsMembers(w.trio.entries, w.trio.list, times, d.list[i]);
    }
  }

  /** What the first phase unbinds had expired, so the plain map agrees it is gone. */
  lemma DropStaleKeepsEntries<K(!new)>(w: World<K>, times: seq<int>, end: int)
    requires Linked(w) && CanDo(w, Collect(times, end, 0))
    ensures EntriesLinked(w.(trio := DropStale(w.trio, times), now := end))
  {
    var d := DropStale(w.trio, times);
    DropStaleMatches(w.trio, {}, times);
    DropStaleIs(w.trio, times);
    forall k | k in w.last && k !in d.entries
      ensures w.last[k].sequence in w.evicted || Deadline(w.last[k].clock) <= end
    {
      if k in w.trio.entries {
        assert ExpiredInList(w.trio, times, k);
        assert SameLater(w.trio.entries[k].clock, w.last[k].clock, w.now);
      }
    }
  }

  lemma DropStaleKeepsLink<K(!new)>(w: World<K>, times: seq<int>, end: int)
    requires Linked(w) && CanDo(w, Collect(times, end, 0))
    ensures Linked(w.(trio := DropStale(w.trio, times), now := end))
  {
    DropStaleKeepsList(w, times, end);
    DropStaleKeepsEntries(w, times, end);
  }

  /** Cutting a matching list unbinds a key exactly when it cuts the key's sequence number. */
  lemma CutKeysAreCutSequences<K(!new)>(s: Trio<K>, n: nat, k: K)
    requires Inv(s, {}) && OneToOne(s, {}) && n <= |s.list| && k in s.entries
    ensures k in KeysOf(s.list[..n]) <==> s.entries[k].sequence in Sequences(s.list[..n])
  {
    DistinctKeysSplit(s.list, n);
    assert (k, s.entries[k]) in s.list;
    var i :| 0 <= i < |s.list| && s.list[i] == (k, s.entries[k]);
    assert s.list[i].0 == k;
    if i < n {
      assert s.list[..n][i] == s.list[i];
    }
  }

  lemma SequencesOfPrefix<K>(list: seq<(K, Entry)>, n: nat, used: set<nat>)
    requires n <= |list| && forall i :: 0 <= i < |list| ==> list[i].1.sequence in used
    ensures Sequences(list[..n]) <= used
    ensures forall i :: 0 <= i < |list[n..]| ==> list[n..][i].1.sequence in used
  {
    forall q | q in Sequences(list[..n])
      ensures q in used
    {
      var i :| 0 <= i < |list[..n]| && list[..n][i].1.sequence == q;
      assert list[i].1.sequence == q;
    }
  }

  function AfterEviction<K>(w: World<K>, budget: int): World<K> {
    w.(trio := EvictOldest(w.trio, budget),
       evicted := w.evicted + Sequences(w.trio.list[..Evicted(w.trio.list, budget)]))
  }

  lemma EvictKeepsList<K(!new)>(w: World<K>, budget: int)
    requires Linked(w) && OneToOne(w.trio, {})
    ensures ListLinked(AfterEviction(w, budget))
  {
    EvictionIs(w.trio, budget);
    EvictionKeepsMatch(w.trio, {}, budget);
    SequencesOfPrefix(w.trio.list, Evicted(w.trio.list, budget), w.used);
  }

  lemma EvictKeepsEntries<K(!new)>(w: World<K>, budget: int)
    requires Linked(w) && OneToOne(w.trio, {})
    ensures EntriesLinked(AfterEviction(w, budget))
  {
    var list, n := w.trio.list, Evicted(w.trio.list, budget);
    EvictionIs(w.trio, budget);
    forall k | k in w.trio.entries
      ensures k in KeysOf(list[..n]) <==> w.last[k].sequence in Sequences(list[..n])
    {
      CutKeysAreCutSequences(w.trio, n, k);
    }
  }

  /** Eviction moves the sequence numbers of what it unbinds into the evicted set. */
  lemma EvictKeepsLink<K(!new)>(w: World<K>, budget: int)
    requires Linked(w) && OneToOne(w.trio, {})
    ensures Linked(AfterEviction(w, budget))
  {
    EvictKeepsList(w, budget);
    EvictKeepsEntries(w, budget);
  }

  lemma StepKeepsLink<K(!new)>(w: World<K>, a: Action<K>)
    requires Linked(w) && CanDo(w, a)
    ensures Linked(Do(w, a))
  {
    match a
    case Accept(k, e) => AcceptKeepsLink(w, k, e);
    case LookUp(k, t1, t2) => LookUpKeepsLink(w, k, t1, t2);
    case Collect(times, end, budget) =>
      DropStaleKeepsLink(w, times, end);
      DropStaleMatches(w.trio, {}, times);
      EvictKeepsLink(w.(trio := DropStale(w.trio, times), now := end), budget);
  }

  lemma {:induction false} RunKeepsLink<K(!new)>(w: World<K>, run: seq<Action<K>>)
    requires Linked(w) && CanRun(w, run)
    ensures Linked(Exec(w, run))
    decreases |run|
  {
    if run != [] {
      StepKeepsLink(w, run[0]);
      RunKeepsLink(Do(w, run[0]), run[1..]);
    }
  }

  /** What a plain map of the last accepted entries would answer, were it not for size. */
  predicate PlainHit<K>(w: World<K>, k: K, t: int) {
    k in w.last && !ExpiredAt(w.last[k].clock, t) && w.last[k].sequence !in w.evicted
  }

  /** After any run, a later lookup hits exactly when the last entry accepted for the key
      is unexpired by the clock it was accepted with and was not evicted for size; and
      what it returns is that entry. */
  lemma LookupRefinesPlainMap<K(!new)>(run: seq<Action<K>>, start: int, k: K, t: int)
    requires CanRun(Empty(start), run) && Exec(Empty(start), run).now < t
    ensures var w := Exec(Empty(start), run);
            var hit := Lookup(w.trio, k, t);
            && (hit.Some? <==> PlainHit(w, k, t))
            && (hit.Some? ==> hit.value.sequence == w.last[k].sequence)
  {
    RunKeepsLink(Empty(start), run);
    var w := Exec(Empty(start), run);
    if k in w.trio.entries {
      assert SameLater(w.trio.entries[k].clock, w.last[k].clock, w.now);
    }
  }

  /** In every reachable state the counter is the sum of the list's record counts, never
      negative, and every binding of the map is in the list. */
  lemma CounterAgreesAfterEveryRun<K(!new)>(run: seq<Action<K>>, start: int)
    requires CanRun(Empty(start), run)
    ensures var s := Exec(Empty(start), run).trio;
            && s.count == Total(s.list) >= 0
            && forall k :: k in s.entries ==> (k, s.entries[k]) in s.list
  {
    RunKeepsLink(Empty(start), run);
  }

  /** The fresh sequence number is needed: when the same answer is added twice for a key,
      a sweep keeps both list items although the map has one binding. */
  lemma SameSequenceTwiceBreaksMatch()
    ensures var e := Entry(0, 1, Clock(0, 10));
            var s: Trio<nat> := Add(Add(Trio(map[], [], 0), 1, e), 1, e);
            var r := Sweep(s, [5, 5], 100);
            s.count == 2 && |r.list| == 2 && |r.entries| == 1 && r.count == 2
  {
    var e := Entry(0, 1, Clock(0, 10));
    var s0: Trio<nat> := Trio(map[], [], 0);
    var s := Add(Add(s0, 1, e), 1, e);
    assert s.list == [(1, e), (1, e)];
    assert s.entries == map[1 := e];
    var times := [5, 5];
    assert times[1..] == [5] && s.list[1..] == [(1, e)] && s.list[1..][1..] == [];
    var tail := s.(list := [(1, e)]);
    assert DropStale(tail, [5]) == tail by {
      assert [5][1..] == [] && tail.list[1..] == [];
      assert DropStale(tail.(list := []), []) == tail.(list := []);
    }
    assert DropStale(s, times) == s;
  }
}
