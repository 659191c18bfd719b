/** The trio the recursive cache keeps twice: a map of entries, the list of everything
    added in order, and a record counter. What additions, lookups and sweeps do to it, and
    how it refines a plain map from keys to the last entry accepted for them. */
module FifoCache {
  import opened Dns
  import opened CacheAnswer

  /** A cached answer: its sequence number, its record count and its clock. */
  datatype Entry = Entry(sequence: nat, records: nat, clock: Clock)

  datatype Trio<K(==)> = Trio(entries: map<K, Entry>, list: seq<(K, Entry)>, count: int)

  function Total<K>(list: seq<(K, Entry)>): nat
    decreases |list|
  {
    if list == [] then 0 else list[0].1.records + Total(list[1..])
  }

  // ---- The operations ----

  function Add<K>(s: Trio<K>, k: K, e: Entry): Trio<K> {
    Trio(s.entries[k := e], s.list + [(k, e)], s.count + e.records)
  }

  /** A list item whose key is still bound to it. */
  predicate Current<K>(entries: map<K, Entry>, item: (K, Entry)) {
    item.0 in entries && entries[item.0].sequence == item.1.sequence
  }

  /** First phase of a sweep: drop what is overwritten or expired. The expiry of item i is
      judged by clock reading times[i]. */
  function DropStale<K>(s: Trio<K>, times: seq<int>): (r: Trio<K>)
    requires |times| == |s.list|
    decreases |s.list|
  {
    if s.list == [] then s
    else
      var item := s.list[0];
      var dropped := Trio(s.entries, s.list[1..], s.count - item.1.records);
      if !Current(s.entries, item) then DropStale(dropped, times[1..])
      else if ExpiredAt(item.1.clock, times[0]) then
        DropStale(dropped.(entries := s.entries - {item.0}), times[1..])
      else
        var rest := DropStale(s.(list := s.list[1..]), times[1..]);
        rest.(list := [item] + rest.list)
  }

  /** Second phase: evict the oldest entries while the counter exceeds the budget. */
  function EvictOldest<K>(s: Trio<K>, budget: int): Trio<K>
    decreases |s.list|
  {
    if s.list != [] && s.count > budget
    then
      var item := s.list[0];
      EvictOldest(Trio(s.entries - {item.0}, s.list[1..], s.count - item.1.records), budget)
    else s
  }

  function Sweep<K>(s: Trio<K>, times: seq<int>, budget: int): Trio<K>
    requires |times| == |s.list|
  {
    EvictOldest(DropStale(s, times), budget)
  }

  /** A lookup at clock reading t: the unexpired entry bound to the key. */
  function Lookup<K>(s: Trio<K>, k: K, t: int): Option<Entry> {
    if k in s.entries && !ExpiredAt(s.entries[k].clock, t) then Some(s.entries[k]) else None
  }

  /** What update_ttls and set_ttls do to a clock; set_ttls leaves the create time alone. */
  datatype Retiming = Updated(now: int) | ResetTo(ttl: nat)

  function Retimed(c: Clock, how: Retiming): Clock {
    match how
    case Updated(now) => Tick(c, now)
    case ResetTo(ttl) => Clock(c.create, ttl * TICKS)
  }

  /** Retiming a cached answer: map and list share the answer object. */
  function Touch(e: Entry, sequence: nat, how: Retiming): Entry {
    if e.sequence == sequence then e.(clock := Retimed(e.clock, how)) else e
  }

  function TouchAll<K>(s: Trio<K>, sequence: nat, how: Retiming): (r: Trio<K>)
    ensures |r.list| == |s.list|
    ensures forall i :: 0 <= i < |r.list| ==>
              r.list[i] == (s.list[i].0, Touch(s.list[i].1, sequence, how))
  {
    Trio(map k | k in s.entries :: Touch(s.entries[k], sequence, how),
         seq(|s.list|, i requires 0 <= i < |s.list| => (s.list[i].0, Touch(s.list[i].1, sequence, how))),
         s.count)
  }

  // ---- The invariant ----

  ghost predicate Distinct<K>(list: seq<(K, Entry)>) {
    forall i, j :: 0 <= i < j < |list| ==> list[i].1.sequence != list[j].1.sequence
  }

  /** Counter, list and map agree. Keys in `pinned` are bound outside the list. */
  ghost predicate Inv<K(!new)>(s: Trio<K>, pinned: set<K>) {
    && s.count == Total(s.list)
    && Distinct(s.list)
    && (forall i :: 0 <= i < |s.list| ==> s.list[i].0 !in pinned)
    && (forall i :: 0 <= i < |s.list| && Current(s.entries, s.list[i]) ==>
          s.entries[s.list[i].0] == s.list[i].1)
    && (forall k :: k in s.entries && k !in pinned ==> (k, s.entries[k]) in s.list)
  }

  /** After a sweep list and map match one to one. */
  ghost predicate OneToOne<K(!new)>(s: Trio<K>, pinned: set<K>) {
    && (forall i :: 0 <= i < |s.list| ==> s.list[i].0 in s.entries && s.entries[s.list[i].0] == s.list[i].1)
    && (forall i, j :: 0 <= i < j < |s.list| ==> s.list[i].0 != s.list[j].0)
    && (forall k :: k in s.entries && k !in pinned ==> (k, s.entries[k]) in s.list)
  }

  lemma {:induction false} TotalConcat<K>(a: seq<(K, Entry)>, b: seq<(K, Entry)>)
    ensures Total(a + b) == Total(a) + Total(b)
    decreases |a|
  {
    if a == [] {
      assert a + b == b;
    } else {
      TotalConcat(a[1..], b);
      assert (a + b)[1..] == a[1..] + b;
    }
  }

  lemma AddKeepsInv<K(!new)>(s: Trio<K>, pinned: set<K>, k: K, e: Entry)
    requires Inv(s, pinned) && k !in pinned
    requires forall i :: 0 <= i < |s.list| ==> s.list[i].1.sequence != e.sequence
    ensures Inv(Add(s, k, e), pinned)
  {
    var s' := Add(s, k, e);
    TotalConcat(s.list, [(k, e)]);
    assert s'.list[|s.list|] == (k, e);
    forall k' | k' in s'.entries && k' !in pinned
      ensures (k', s'.entries[k']) in s'.list
    {
      if k' != k {
        assert (k', s.entries[k']) in s.list;
      }
    }
  }

  // ---- What the first phase leaves ----

  predicate Survives<K>(entries: map<K, Entry>, item: (K, Entry), t: int) {
    Current(entries, item) && !ExpiredAt(item.1.clock, t)
  }

  /** The current unexpired items of a list, in order. */
  function Survivors<K>(entries: map<K, Entry>, list: seq<(K, Entry)>, times: seq<int>): seq<(K, Entry)>
    requires |times| == |list|
    decreases |list|
  {
    if list == [] then []
    else (if Survives(entries, list[0], times[0]) then [list[0]] else [])
         + Survivors(entries, list[1..], times[1..])
  }

  /** The keys whose current item in the list is expired. */
  function ExpiredKeys<K>(entries: map<K, Entry>, list: seq<(K, Entry)>, times: seq<int>): set<K>
    requires |times| == |list|
    decreases |list|
  {
    if list == [] then {}
    else (if Current(entries, list[0]) && ExpiredAt(list[0].1.clock, times[0]) then {list[0].0} else {})
         + ExpiredKeys(entries, list[1..], times[1..])
  }

  /** Erasing a key none of whose items is current changes nothing for the rest. */
  lemma {:induction false} EraseIrrelevant<K>(entries: map<K, Entry>, k: K, list: seq<(K, Entry)>, times: seq<int>)
    requires |times| == |list|
    requires forall i :: 0 <= i < |list| && list[i].0 == k ==> !Current(entries, list[i])
    ensures Survivors(entries - {k}, list, times) == Survivors(entries, list, times)
    ensures ExpiredKeys(entries - {k}, list, times) == ExpiredKeys(entries, list, times)
    decreases |list|
  {
    if list != [] {
      EraseIrrelevant(entries, k, list[1..], times[1..]);
    }
  }

  /** The trio the first phase continues with after the first item. */
  function AfterFirst<K>(s: Trio<K>, t: int): Trio<K>
    requires s.list != []
  {
    var item := s.list[0];
    var dropped := Trio(s.entries, s.list[1..], s.count - item.1.records);
    if !Current(s.entries, item) then dropped
    else if ExpiredAt(item.1.clock, t) then dropped.(entries := s.entries - {item.0})
    else s.(list := s.list[1..])
  }

  lemma DropStaleFirst<K>(s: Trio<K>, times: seq<int>)
    requires s.list != [] && |times| == |s.list|
    ensures var r := DropStale(AfterFirst(s, times[0]), times[1..]);
            DropStale(s, times) ==
              if Survives(s.entries, s.list[0], times[0]) then r.(list := [s.list[0]] + r.list) else r
  {
  }

  lemma AfterFirstAgrees<K>(s: Trio<K>, times: seq<int>)
    requires s.list != [] && |times| == |s.list| && Distinct(s.list)
    ensures var s' := AfterFirst(s, times[0]);
            && s'.list == s.list[1..] && Distinct(s'.list)
            && Survivors(s'.entries, s'.list, times[1..]) == Survivors(s.entries, s'.list, times[1..])
            && ExpiredKeys(s'.entries, s'.list, times[1..]) == ExpiredKeys(s.entries, s'.list, times[1..])
            && s'.entries - ExpiredKeys(s'.entries, s'.list, times[1..]) == s.entries - ExpiredKeys(s.entries, s.list, times)
  {
    var item := s.list[0];
    assert forall i :: 0 <= i < |s.list[1..]| ==> s.list[1..][i] == s.list[i+1];
    if Current(s.entries, item) && ExpiredAt(item.1.clock, times[0]) {
      EraseIrrelevant(s.entries, item.0, s.list[1..], times[1..]);
    }
  }

  /** The first phase keeps exactly the current unexpired items, in order, and unbinds
      exactly the keys whose current item is expired. */
  lemma {:induction false} DropStaleIs<K>(s: Trio<K>, times: seq<int>)
    requires |times| == |s.list| && Distinct(s.list)
    ensures var r := DropStale(s, times);
            && r.list == Survivors(s.entries, s.list, times)
            && r.entries == s.entries - ExpiredKeys(s.entries, s.list, times)
    decreases |s.list|
  {
    if s.list != [] {
      DropStaleFirst(s, times);
      AfterFirstAgrees(s, times);
      DropStaleIs(AfterFirst(s, times[0]), times[1..]);
    }
  }

  /** The counter drops by the record counts of exactly what is dropped. */
  lemma {:induction false} DropStaleCounts<K>(s: Trio<K>, times: seq<int>)
    requires |times| == |s.list|
    ensures DropStale(s, times).count == s.count - Total(s.list) + Total(DropStale(s, times).list)
    decreases |s.list|
  {
    if s.list != [] {
      DropStaleFirst(s, times);
      DropStaleCounts(AfterFirst(s, times[0]), times[1..]);
      TotalConcat([s.list[0]], DropStale(AfterFirst(s, times[0]), times[1..]).list);
    }
  }

  lemma {:induction false} SurvivorsMembers<K>(entries: map<K, Entry>, list: seq<(K, Entry)>, times: seq<int>, item: (K, Entry))
    requires |times| == |list|
    ensures item in Survivors(entries, list, times) <==>
              exists i :: 0 <= i < |list| && list[i] == item && Survives(entries, item, times[i])
    decreases |list|
  {
    if list != [] {
      SurvivorsMembers(entries, list[1..], times[1..], item);
      if item in Survivors(entries, list[1..], times[1..]) {
        var i :| 0 <= i < |list[1..]| && list[1..][i] == item && Survives(entries, item, times[1..][i]);
        assert list[i+1] == item && Survives(entries, item, times[i+1]);
      }
      if exists i :: 0 <= i < |list| && list[i] == item && Survives(entries, item, times[i]) {
        var i :| 0 <= i < |list| && list[i] == item && Survives(entries, item, times[i]);
        if i > 0 {
          assert list[1..][i-1] == item && Survives(entries, item, times[1..][i-1]);
        }
      }
    }
  }

  lemma {:induction false} ExpiredKeysMembers<K>(entries: map<K, Entry>, list: seq<(K, Entry)>, times: seq<int>, k: K)
    requires |times| == |list|
    ensures k in ExpiredKeys(entries, list, times) <==>
              exists i :: 0 <= i < |list| && list[i].0 == k && Current(entries, list[i]) && ExpiredAt(list[i].1.clock, times[i])
    decreases |list|
  {
    if list != [] {
      ExpiredKeysMembers(entries, list[1..], times[1..], k);
      if k in ExpiredKeys(entries, list[1..], times[1..]) {
        var i :| 0 <= i < |list[1..]| && list[1..][i].0 == k && Current(entries, list[1..][i]) && ExpiredAt(list[1..][i].1.clock, times[1..][i]);
        assert list[i+1].0 == k && Current(entries, list[i+1]) && ExpiredAt(list[i+1].1.clock, times[i+1]);
      }
      if exists i :: 0 <= i < |list| && list[i].0 == k && Current(entries, list[i]) && ExpiredAt(list[i].1.clock, times[i]) {
        var i :| 0 <= i < |list| && list[i].0 == k && Current(entries, list[i]) && ExpiredAt(list[i].1.clock, times[i]);
        if i > 0 {
          assert list[1..][i-1] == list[i] && times[1..][i-1] == times[i];
        }
      }
    }
  }

  lemma {:induction false} SurvivorsDistinct<K>(entries: map<K, Entry>, list: seq<(K, Entry)>, times: seq<int>)
    requires |times| == |list| && Distinct(list)
    ensures var r := Survivors(entries, list, times);
            Distinct(r) && forall i, j :: 0 <= i < j < |r| ==> r[i].0 != r[j].0
    decreases |list|
  {
    if list != [] {
      var rest := Survivors(entries, list[1..], times[1..]);
      SurvivorsDistinct(entries, list[1..], times[1..]);
      if Survives(entries, list[0], times[0]) {
        var r := Survivors(entries, list, times);
        forall j | 0 < j < |r|
          ensures r[0].1.sequence != r[j].1.sequence && r[0].0 != r[j].0
        {
          assert r[j] == rest[j-1] && rest[j-1] in rest;
          SurvivorsMembers(entries, list[1..], times[1..], rest[j-1]);
          var i :| 0 <= i < |list[1..]| && list[1..][i] == rest[j-1] && Survives(entries, rest[j-1], times[1..][i]);
          assert list[i+1] == r[j];
        }
      }
    }
  }

  /** A key is unbound exactly when its own item in the list was expired at its reading. */
  ghost predicate ExpiredInList<K(!new)>(s: Trio<K>, times: seq<int>, k: K)
    requires |times| == |s.list| && k in s.entries
  {
    exists i :: 0 <= i < |s.list| && s.list[i] == (k, s.entries[k]) && ExpiredAt(s.entries[k].clock, times[i])
  }

  lemma UnboundIffExpired<K(!new)>(s: Trio<K>, pinned: set<K>, times: seq<int>, k: K)
    requires Inv(s, pinned) && |times| == |s.list|
    ensures k in ExpiredKeys(s.entries, s.list, times) <==>
              k in s.entries && k !in pinned && ExpiredInList(s, times, k)
  {
    ExpiredKeysMembers(s.entries, s.list, times, k);
    if k in ExpiredKeys(s.entries, s.list, times) {
      var i :| 0 <= i < |s.list| && s.list[i].0 == k && Current(s.entries, s.list[i]) && ExpiredAt(s.list[i].1.clock, times[i]);
      assert s.list[i] == (k, s.entries[k]);
    }
    if k in s.entries && ExpiredInList(s, times, k) {
      var i :| 0 <= i < |s.list| && s.list[i] == (k, s.entries[k]) && ExpiredAt(s.entries[k].clock, times[i]);
      assert Current(s.entries, s.list[i]);
    }
  }

  lemma SurvivorIsBound<K(!new)>(s: Trio<K>, pinned: set<K>, times: seq<int>, item: (K, Entry))
    requires Inv(s, pinned) && |times| == |s.list|
    requires item in Survivors(s.entries, s.list, times)
    ensures item.0 in s.entries && item.0 !in pinned && s.entries[item.0] == item.1
    ensures item.0 !in ExpiredKeys(s.entries, s.list, times)
  {
    SurvivorsMembers(s.entries, s.list, times, item);
    var j :| 0 <= j < |s.list| && s.list[j] == item && Survives(s.entries, item, times[j]);
    UnboundIffExpired(s, pinned, times, item.0);
  }

  lemma BoundSurvives<K(!new)>(s: Trio<K>, pinned: set<K>, times: seq<int>, k: K)
    requires Inv(s, pinned) && |times| == |s.list|
    requires k in s.entries && k !in pinned && k !in ExpiredKeys(s.entries, s.list, times)
    ensures (k, s.entries[k]) in Survivors(s.entries, s.list, times)
  {
    var item := (k, s.entries[k]);
    assert item in s.list;
    var j :| 0 <= j < |s.list| && s.list[j] == item;
    UnboundIffExpired(s, pinned, times, k);
    assert Survives(s.entries, item, times[j]);
    SurvivorsMembers(s.entries, s.list, times, item);
  }

  /** After the first phase list and map match one to one; the bindings that are left are
      unchanged; only keys whose own item was expired are gone. */
  lemma DropStaleMatches<K(!new)>(s: Trio<K>, pinned: set<K>, times: seq<int>)
    requires Inv(s, pinned) && |times| == |s.list|
    ensures var r := DropStale(s, times);
            && OneToOne(r, pinned) && Inv(r, pinned)
            && r.entries.Keys <= s.entries.Keys
            && (forall k :: k in r.entries ==> r.entries[k] == s.entries[k])
            && (forall k :: k in s.entries ==>
                  (k !in r.entries <==> k !in pinned && ExpiredInList(s, times, k)))
  {
    var r := DropStale(s, times);
    DropStaleIs(s, times);
    DropStaleCounts(s, times);
    SurvivorsDistinct(s.entries, s.list, times);
    forall i | 0 <= i < |r.list|
      ensures r.list[i].0 in r.entries && r.entries[r.list[i].0] == r.list[i].1 && r.list[i].0 !in pinned
    {
      SurvivorIsBound(s, pinned, times, r.list[i]);
    }
    forall k | k in r.entries && k !in pinned
      ensures (k, r.entries[k]) in r.list
    {
      BoundSurvives(s, pinned, times, k);
    }
    forall k | k in s.entries
      ensures k !in r.entries <==> k !in pinned && ExpiredInList(s, times, k)
    {
      UnboundIffExpired(s, pinned, times, k);
    }
  }

  // ---- What the second phase leaves ----

  function KeysOf<K>(list: seq<(K, Entry)>): set<K>
    decreases |list|
  {
    if list == [] then {} else {list[0].0} + KeysOf(list[1..])
  }

  lemma {:induction false} KeysOfMembers<K>(list: seq<(K, Entry)>, k: K)
    ensures k in KeysOf(list) <==> exists i :: 0 <= i < |list| && list[i].0 == k
    decreases |list|
  {
    if list != [] {
      KeysOfMembers(list[1..], k);
      if k in KeysOf(list[1..]) {
        var i :| 0 <= i < |list[1..]| && list[1..][i].0 == k;
        assert list[i+1].0 == k;
      }
      if exists i :: 0 <= i < |list| && list[i].0 == k {
        var i :| 0 <= i < |list| && list[i].0 == k;
        if i > 0 {
          assert list[1..][i-1].0 == k;
        }
      }
    }
  }

  /** How many items the second phase drops. */
  function Evicted<K>(list: seq<(K, Entry)>, budget: int): (n: nat)
    ensures n <= |list|
    decreases |list|
  {
    if list != [] && Total(list) > budget then 1 + Evicted(list[1..], budget) else 0
  }

  /** It is the least number whose removal makes the rest fit, so what is left is the
      longest suffix that fits. */
  lemma {:induction false} EvictedIsLeast<K>(list: seq<(K, Entry)>, budget: int)
    ensures var n := Evicted(list, budget);
            && (budget >= 0 ==> Total(list[n..]) <= budget)
            && forall m :: 0 <= m < n ==> Total(list[m..]) > budget
    decreases |list|
  {
    var n := Evicted(list, budget);
    assert list[0..] == list;
    if n > 0 {
      EvictedIsLeast(list[1..], budget);
      assert list[n..] == list[1..][n-1..];
      forall m | 0 <= m < n
        ensures Total(list[m..]) > budget
      {
        if m > 0 {
          assert list[m..] == list[1..][m-1..];
        }
      }
    }
  }

  /** Eviction drops that many items from the front and unbinds exactly their keys. */
  lemma {:induction false} EvictionIs<K>(s: Trio<K>, budget: int)
    requires s.count == Total(s.list)
    ensures var n := Evicted(s.list, budget);
            EvictOldest(s, budget) == Trio(s.entries - KeysOf(s.list[..n]), s.list[n..], Total(s.list[n..]))
    decreases |s.list|
  {
    var n := Evicted(s.list, budget);
    if n > 0 {
      var item := s.list[0];
      var s' := Trio(s.entries - {item.0}, s.list[1..], s.count - item.1.records);
      EvictionIs(s', budget);
      assert s.list[n..] == s'.list[n-1..];
      assert s.list[..n][1..] == s'.list[..n-1];
      assert s.entries - KeysOf(s.list[..n]) == s'.entries - KeysOf(s'.list[..n-1]);
    } else {
      assert s.list[0..] == s.list && s.list[..0] == [];
      assert s.entries - {} == s.entries;
    }
  }

  lemma DistinctKeysSplit<K>(list: seq<(K, Entry)>, n: nat)
    requires n <= |list| && forall i, j :: 0 <= i < j < |list| ==> list[i].0 != list[j].0
    ensures forall i :: 0 <= i < |list| ==> (list[i].0 in KeysOf(list[..n]) <==> i < n)
  {
    forall i | 0 <= i < |list|
      ensures list[i].0 in KeysOf(list[..n]) <==> i < n
    {
      KeysOfMembers(list[..n], list[i].0);
      if i < n {
        assert list[..n][i].0 == list[i].0;
      }
    }
  }

  /** Cutting a matching trio's list anywhere and unbinding the cut keys keeps it matching. */
  lemma CutKeepsMatch<K(!new)>(s: Trio<K>, pinned: set<K>, n: nat, r: Trio<K>)
    requires OneToOne(s, pinned) && n <= |s.list|
    requires r == Trio(s.entries - KeysOf(s.list[..n]), s.list[n..], Total(s.list[n..]))
    ensures OneToOne(r, pinned)
  {
    DistinctKeysSplit(s.list, n);
    assert forall i :: 0 <= i < |r.list| ==> r.list[i] == s.list[n + i];
    forall k | k in r.entries && k !in pinned
      ensures (k, r.entries[k]) in r.list
    {
      var i :| 0 <= i < |s.list| && s.list[i] == (k, s.entries[k]);
      assert s.list[i].0 == k;
      assert r.list[i - n] == s.list[i];
    }
  }

  lemma MatchGivesInv<K(!new)>(s: Trio<K>, pinned: set<K>)
    requires OneToOne(s, pinned) && Distinct(s.list) && s.count == Total(s.list)
    requires forall i :: 0 <= i < |s.list| ==> s.list[i].0 !in pinned
    ensures Inv(s, pinned)
  {
  }

  lemma EvictionKeepsMatch<K(!new)>(s: Trio<K>, pinned: set<K>, budget: int)
    requires OneToOne(s, pinned) && Inv(s, pinned)
    ensures OneToOne(EvictOldest(s, budget), pinned) && Inv(EvictOldest(s, budget), pinned)
    ensures KeysOf(s.list[..Evicted(s.list, budget)]) !! pinned
  {
    var n := Evicted(s.list, budget);
    EvictionIs(s, budget);
    var r := EvictOldest(s, budget);
    CutKeepsMatch(s, pinned, n, r);
    assert forall i :: 0 <= i < |r.list| ==> r.list[i] == s.list[n + i];
    MatchGivesInv(r, pinned);
    forall k | k in KeysOf(s.list[..n])
      ensures k !in pinned
    {
      KeysOfMembers(s.list[..n], k);
    }
  }

  /** A whole sweep: the survivors, in insertion order, are exactly the longest suffix of
      the current unexpired entries whose record total fits the budget; the counter is
      that total and never exceeds the budget; list and map match one to one. */
  lemma SweepIs<K(!new)>(s: Trio<K>, pinned: set<K>, times: seq<int>, budget: int)
    requires Inv(s, pinned) && |times| == |s.list|
    ensures var alive := Survivors(s.entries, s.list, times);
            var n := Evicted(alive, budget);
            var r := Sweep(s, times, budget);
            && r.list == alive[n..] && r.count == Total(r.list)
            && (budget >= 0 ==> r.count <= budget)
            && (forall m :: 0 <= m < n ==> Total(alive[m..]) > budget)
            && OneToOne(r, pinned) && Inv(r, pinned)
            && (forall k :: k in r.entries ==> k in s.entries && r.entries[k] == s.entries[k])
            && (forall k :: k in pinned && k in s.entries ==> k in r.entries)
  {
    DropStaleIs(s, times);
    DropStaleCounts(s, times);
    DropStaleMatches(s, pinned, times);
    var d := DropStale(s, times);
    EvictionKeepsMatch(d, pinned, budget);
    EvictionIs(d, budget);
    EvictedIsLeast(d.list, budget);
  }

  /** The first phase is invisible to every lookup made after its last clock reading. */
  lemma DropStaleIsInvisible<K(!new)>(s: Trio<K>, pinned: set<K>, times: seq<int>, k: K, t: int)
    requires Inv(s, pinned) && |times| == |s.list|
    requires forall i :: 0 <= i < |times| ==> times[i] <= t
    ensures Lookup(DropStale(s, times), k, t) == Lookup(s, k, t)
  {
    DropStaleMatches(s, pinned, times);
  }

  // ---- Touching ----

  lemma {:induction false} SameRecordsSameTotal<K>(a: seq<(K, Entry)>, b: seq<(K, Entry)>)
    requires |a| == |b| && forall i :: 0 <= i < |a| ==> a[i].1.records == b[i].1.records
    ensures Total(a) == Total(b)
    decreases |a|
  {
    if a != [] {
      SameRecordsSameTotal(a[1..], b[1..]);
    }
  }

  lemma TouchKeepsInv<K(!new)>(s: Trio<K>, sequence: nat, how: Retiming, pinned: set<K>)
    requires Inv(s, pinned)
    ensures Inv(TouchAll(s, sequence, how), pinned)
  {
    var r := TouchAll(s, sequence, how);
    SameRecordsSameTotal(r.list, s.list);
    forall k | k in r.entries && k !in pinned
      ensures (k, r.entries[k]) in r.list
    {
      var i :| 0 <= i < |s.list| && s.list[i] == (k, s.entries[k]);
      assert r.list[i] == (k, r.entries[k]);
    }
    forall i | 0 <= i < |r.list| && Current(r.entries, r.list[i])
      ensures r.entries[r.list[i].0] == r.list[i].1
    {
      assert Current(s.entries, s.list[i]);
    }
  }
}
