/** The sliding-window frequency meter: one counter slot per second of the period, a
    running total, and how the reading compares with the true number of events. */
module FrequencyMeter {

  /** `n` events reported at clock second `time`. */
  datatype Event = Event(time: int, n: int)

  /** The meter's fields as a value; the period is the number of slots. */
  datatype State = State(slots: seq<int>, frequency: int, last: int)

  function Sum(s: seq<int>): int {
    if s == [] then 0 else s[0] + Sum(s[1..])
  }

  // ---- What the meter does, as a function ----

  function ClearSlot(m: State, i: nat): State
    requires i < |m.slots|
  {
    m.(slots := m.slots[i := 0], frequency := m.frequency - m.slots[i])
  }

  /** Clears the slots of the seconds last, last+1, ... below `limit`. */
  function Sweep(m: State, limit: int): (r: State)
    requires |m.slots| > 0
    ensures |r.slots| == |m.slots|
    decreases limit - m.last
  {
    if m.last < limit
    then Sweep(ClearSlot(m, m.last % |m.slots|).(last := m.last + 1), limit)
    else m
  }

  function Record(m: State, now: int, n: int): (r: State)
    requires |m.slots| > 0
    ensures |r.slots| == |m.slots| && r.last == now
  {
    var P := |m.slots|;
    AddTo(Sweep(Opened(m, now), now - P), now, n)
  }

  /** The slot of a new second is cleared first. */
  function Opened(m: State, now: int): (r: State)
    requires |m.slots| > 0
    ensures |r.slots| == |m.slots| && r.last == m.last
  {
    if m.last != now then ClearSlot(m, now % |m.slots|) else m
  }

  function AddTo(m: State, now: int, n: int): (r: State)
    requires |m.slots| > 0
    ensures |r.slots| == |m.slots| && r.last == now
  {
    var i := now % |m.slots|;
    State(m.slots[i := m.slots[i] + n], m.frequency + n, now)
  }

  function Fresh(period: nat, now: int): (m: State)
    ensures |m.slots| == period
  {
    State(seq(period, _ => 0), 0, now)
  }

  function RunMeter(m: State, h: seq<Event>): (r: State)
    requires |m.slots| > 0
    ensures |r.slots| == |m.slots|
  {
    if h == [] then m
    else Record(RunMeter(m, h[..|h|-1]), h[|h|-1].time, h[|h|-1].n)
  }

  // ---- What it is meant to measure ----

  /** The events of `h` with lo < time <= hi, counted. */
  function Count(h: seq<Event>, lo: int, hi: int): int {
    if h == [] then 0
    else Count(h[..|h|-1], lo, hi) +
         (if lo < h[|h|-1].time <= hi then h[|h|-1].n else 0)
  }

  /** As Count, restricted to the seconds that share slot `i` of a period of P seconds. */
  function SlotCount(h: seq<Event>, lo: int, hi: int, P: int, i: int): int
    requires P > 0
  {
    if h == [] then 0
    else SlotCount(h[..|h|-1], lo, hi, P, i) +
         (if lo < h[|h|-1].time <= hi && h[|h|-1].time % P == i then h[|h|-1].n else 0)
  }

  function LastTime(h: seq<Event>, start: int): int {
    if h == [] then start else h[|h|-1].time
  }

  /** The clock never goes back over the history, which starts at `start`. */
  ghost predicate Chronological(h: seq<Event>, start: int) {
    h == [] ||
    (Chronological(h[..|h|-1], start) && LastTime(h[..|h|-1], start) <= h[|h|-1].time)
  }

  ghost predicate NonNegative(h: seq<Event>) {
    forall i :: 0 <= i < |h| ==> h[i].n >= 0
  }

  /** Every gap between calls is at most one second or at least two periods. */
  ghost predicate GapsHarmless(h: seq<Event>, start: int, P: int) {
    h == [] ||
    (GapsHarmless(h[..|h|-1], start, P) &&
     var gap := h[|h|-1].time - LastTime(h[..|h|-1], start);
     gap <= 1 || gap >= 2 * P)
  }

  // ---- Sums over slots ----

  lemma {:induction false} SumUpdate(s: seq<int>, i: nat, v: int)
    requires i < |s|
    ensures Sum(s[i := v]) == Sum(s) - s[i] + v
  {
    if i > 0 {
      SumUpdate(s[1..], i - 1, v);
      assert s[i := v][1..] == s[1..][i-1 := v];
    } else {
      assert s[i := v][1..] == s[1..];
    }
  }

  lemma {:induction false} SumMonotone(a: seq<int>, b: seq<int>)
    requires |a| == |b| && forall i :: 0 <= i < |a| ==> a[i] <= b[i]
    ensures Sum(a) <= Sum(b)
  {
    if a != [] {
      SumMonotone(a[1..], b[1..]);
    }
  }

  lemma {:induction false} SumZero(s: seq<int>)
    requires forall i :: 0 <= i < |s| ==> s[i] == 0
    ensures Sum(s) == 0
  {
    if s != [] {
      SumZero(s[1..]);
    }
  }

  function Slots(h: seq<Event>, lo: int, hi: int, P: nat): (r: seq<int>)
    requires P > 0
    ensures |r| == P
    ensures forall i :: 0 <= i < P ==> r[i] == SlotCount(h, lo, hi, P, i)
  {
    seq(P, i => SlotCount(h, lo, hi, P, i))
  }

  /** Splitting a count over the slots loses nothing. */
  lemma {:induction false} CountIsSumOfSlots(h: seq<Event>, lo: int, hi: int, P: nat)
    requires P > 0
    ensures Sum(Slots(h, lo, hi, P)) == Count(h, lo, hi)
  {
    var all := Slots(h, lo, hi, P);
    if h == [] {
      SumZero(all);
    } else {
      var e := h[|h|-1];
      var rest := Slots(h[..|h|-1], lo, hi, P);
      CountIsSumOfSlots(h[..|h|-1], lo, hi, P);
      if lo < e.time <= hi {
        var k := e.time % P;
        assert all == rest[k := rest[k] + e.n];
        SumUpdate(rest, k, rest[k] + e.n);
      } else {
        assert all == rest;
      }
    }
  }

  // ---- The running total ----

  lemma {:induction false} SweepKeepsTotal(m: State, limit: int)
    requires |m.slots| > 0 && m.frequency == Sum(m.slots)
    ensures Sweep(m, limit).frequency == Sum(Sweep(m, limit).slots)
    decreases limit - m.last
  {
    if m.last < limit {
      SumUpdate(m.slots, m.last % |m.slots|, 0);
      SweepKeepsTotal(ClearSlot(m, m.last % |m.slots|).(last := m.last + 1), limit);
    }
  }

  lemma OpenedKeepsTotal(m: State, now: int)
    requires |m.slots| > 0 && m.frequency == Sum(m.slots)
    ensures Opened(m, now).frequency == Sum(Opened(m, now).slots)
  {
    SumUpdate(m.slots, now % |m.slots|, 0);
  }

  lemma AddKeepsTotal(m: State, now: int, n: int)
    requires |m.slots| > 0 && m.frequency == Sum(m.slots)
    ensures AddTo(m, now, n).frequency == Sum(AddTo(m, now, n).slots)
  {
    SumUpdate(m.slots, now % |m.slots|, m.slots[now % |m.slots|] + n);
  }

  lemma RecordKeepsTotal(m: State, now: int, n: int)
    requires |m.slots| > 0 && m.frequency == Sum(m.slots)
    ensures Record(m, now, n).frequency == Sum(Record(m, now, n).slots)
  {
    OpenedKeepsTotal(m, now);
    SweepKeepsTotal(Opened(m, now), now - |m.slots|);
    AddKeepsTotal(Sweep(Opened(m, now), now - |m.slots|), now, n);
  }

  // ---- Which slots a call clears ----

  ghost predicate Swept(last: int, limit: int, P: int, i: int)
    requires P > 0
  {
    exists k :: last <= k < limit && k % P == i
  }

  lemma {:induction false} SweepClears(m: State, limit: int, i: nat)
    requires i < |m.slots|
    ensures Sweep(m, limit).slots[i] == if Swept(m.last, limit, |m.slots|, i) then 0 else m.slots[i]
    decreases limit - m.last
  {
    var P := |m.slots|;
    if m.last < limit {
      var m' := ClearSlot(m, m.last % P).(last := m.last + 1);
      SweepClears(m', limit, i);
      if m.last % P == i {
        assert Swept(m.last, limit, P, i);
      } else if Swept(m.last, limit, P, i) {
        var k :| m.last <= k < limit && k % P == i;
        assert k != m.last;
        assert Swept(m.last + 1, limit, P, i);
      }
    }
  }

  lemma RecordSlot(m: State, now: int, n: int, i: nat)
    requires i < |m.slots|
    ensures var P := |m.slots|;
            Record(m, now, n).slots[i] ==
            (if Swept(m.last, now - P, P, i) || (i == now % P && m.last != now) then 0 else m.slots[i])
            + (if i == now % P then n else 0)
  {
    var P := |m.slots|;
    var m1 := if m.last != now then ClearSlot(m, now % P) else m;
    SweepClears(m1, now - P, i);
  }

  // ---- Arithmetic of seconds and slots ----

  lemma MulOrder(a: int, b: int, P: int)
    requires P > 0
    ensures a <= b ==> a * P <= b * P
    ensures a < b ==> (a + 1) * P <= b * P
  {
  }

  /** Distinct seconds that share a slot are at least a period apart. */
  lemma SameSlotFarApart(a: int, b: int, P: int)
    requires P > 0 && a < b && a % P == b % P
    ensures a <= b - P
  {
    var qa, qb := a / P, b / P;
    assert a == qa * P + a % P && b == qb * P + b % P;
    MulOrder(qa, qb, P);
    MulOrder(qb, qa, P);
  }

  lemma ModShift(a: int, P: int)
    requires P > 0
    ensures (a + P) % P == a % P && (a - P) % P == a % P
  {
    var q, r := a / P, a % P;
    assert a == q * P + r;
    assert a + P == (q + 1) * P + r;
    assert a - P == (q - 1) * P + r;
    QuotientIsUnique(a + P, P, q + 1, r);
    QuotientIsUnique(a - P, P, q - 1, r);
  }

  lemma QuotientIsUnique(a: int, P: int, q: int, r: int)
    requires P > 0 && 0 <= r < P && a == q * P + r
    ensures a % P == r
  {
    var q', r' := a / P, a % P;
    assert a == q' * P + r';
    MulOrder(q, q', P);
    MulOrder(q', q, P);
  }

  // ---- The reading is never below the truth ----

  /** Each slot holds at least the events of the one second in the window it stands for. */
  ghost predicate Covers(m: State, h: seq<Event>) {
    |m.slots| > 0 &&
    forall i :: 0 <= i < |m.slots| ==>
      m.slots[i] >= SlotCount(h, m.last - |m.slots|, m.last, |m.slots|, i)
  }

  /** A later window holds no more of a fixed history than an earlier one. */
  lemma {:induction false} SlotCountShrinks(h: seq<Event>, lo: int, lo': int, hi: int, hi': int, P: int, i: int)
    requires P > 0 && NonNegative(h) && lo <= lo' && hi <= hi'
    requires forall k :: 0 <= k < |h| ==> h[k].time <= hi
    ensures SlotCount(h, lo', hi', P, i) <= SlotCount(h, lo, hi, P, i)
  {
    if h != [] {
      SlotCountShrinks(h[..|h|-1], lo, lo', hi, hi', P, i);
    }
  }

  lemma {:induction false} SlotCountNone(h: seq<Event>, lo: int, hi: int, P: int, i: int)
    requires P > 0
    requires forall k :: 0 <= k < |h| ==> !(lo < h[k].time <= hi && h[k].time % P == i)
    ensures SlotCount(h, lo, hi, P, i) == 0
  {
    if h != [] {
      SlotCountNone(h[..|h|-1], lo, hi, P, i);
    }
  }

  lemma {:induction false} HistoryBounds(h: seq<Event>, start: int)
    requires Chronological(h, start)
    ensures forall k :: 0 <= k < |h| ==> start <= h[k].time <= LastTime(h, start)
    ensures start <= LastTime(h, start)
    decreases |h|
  {
    if h != [] {
      var h0 := h[..|h|-1];
      HistoryBounds(h0, start);
      forall k | 0 <= k < |h| - 1
        ensures start <= h[k].time <= LastTime(h, start)
      {
        assert h[k] == h0[k];
      }
    }
  }

  lemma RecordKeepsCover(m: State, h: seq<Event>, e: Event)
    requires Covers(m, h) && NonNegative(h) && m.last <= e.time
    requires forall k :: 0 <= k < |h| ==> h[k].time <= m.last
    ensures Covers(Record(m, e.time, e.n), h + [e])
  {
    var P, now := |m.slots|, e.time;
    var r := Record(m, now, e.n);
    var h' := h + [e];
    assert h'[..|h'|-1] == h;
    forall i | 0 <= i < P
      ensures r.slots[i] >= SlotCount(h', now - P, now, P, i)
    {
      RecordSlot(m, now, e.n, i);
      SlotCountShrinks(h, m.last - P, now - P, m.last, now, P, i);
      if Swept(m.last, now - P, P, i) {
        SlotCountNone(h, now - P, now, P, i);
      } else if i == now % P && m.last != now {
        forall k | 0 <= k < |h|
          ensures !(now - P < h[k].time <= now && h[k].time % P == i)
        {
          if h[k].time % P == i {
            SameSlotFarApart(h[k].time, now, P);
          }
        }
        SlotCountNone(h, now - P, now, P, i);
      }
    }
  }

  lemma {:induction false} RunCovers(P: nat, start: int, h: seq<Event>)
    requires P > 0 && Chronological(h, start) && NonNegative(h)
    ensures var m := RunMeter(Fresh(P, start), h);
            Covers(m, h) && m.last == LastTime(h, start) && m.frequency == Sum(m.slots)
    decreases |h|
  {
    if h == [] {
      SumZero(Fresh(P, start).slots);
    } else {
      var h0, e := h[..|h|-1], h[|h|-1];
      RunCovers(P, start, h0);
      HistoryBounds(h0, start);
      RecordKeepsCover(RunMeter(Fresh(P, start), h0), h0, e);
      RecordKeepsTotal(RunMeter(Fresh(P, start), h0), e.time, e.n);
      assert h0 + [e] == h;
    }
  }

  /** For any clock that does not go back and any non-negative events, the reading is the
      sum of the slots and never misses an event of the last P seconds. */
  lemma NeverUndercounts(P: nat, start: int, h: seq<Event>)
    requires P > 0 && Chronological(h, start) && NonNegative(h)
    ensures var m := RunMeter(Fresh(P, start), h);
            var now := LastTime(h, start);
            m.frequency == Sum(m.slots) && m.frequency >= Count(h, now - P, now)
  {
    RunCovers(P, start, h);
    var m := RunMeter(Fresh(P, start), h);
    CountIsSumOfSlots(h, m.last - P, m.last, P);
    SumMonotone(Slots(h, m.last - P, m.last, P), m.slots);
  }

  // ---- By how much it can exceed the truth ----

  ghost predicate Exact(m: State, h: seq<Event>) {
    && |m.slots| > 0 && m.frequency == Sum(m.slots)
    && (forall k :: 0 <= k < |h| ==> h[k].time <= m.last)
    && forall i :: 0 <= i < |m.slots| ==>
         m.slots[i] == SlotCount(h, m.last - |m.slots|, m.last, |m.slots|, i)
  }

  /** The seconds (lo, hi] that have left the window while their slots were not cleared. */
  function StaleFrom(last: int, now: int, P: int): int {
    if now - last <= P then last - P else now - 2 * P
  }

  function StaleTo(last: int, now: int, P: int): int {
    if now - last <= P then now - P - 1 else last - 1
  }

  lemma SweptRange(last: int, now: int, P: int, i: int)
    requires P > 0 && 0 <= i < P && last <= now
    ensures now - last <= P ==> !Swept(last, now - P, P, i)
    ensures now - last >= 2 * P ==> Swept(last, now - P, P, i)
  {
    if now - last >= 2 * P {
      var k := last + (i - last) % P;
      var q := (i - last) / P;
      assert i - last == q * P + (i - last) % P;
      assert k == (-q) * P + i;
      QuotientIsUnique(k, P, -q, i);
      assert last <= k < now - P;
    }
  }

  ghost predicate Cleared(last: int, now: int, P: int, i: int)
    requires P > 0
  {
    Swept(last, now - P, P, i) || (i == now % P && last != now)
  }

  lemma StaleSlotShortGap(t: int, last: int, now: int, P: int)
    requires P > 0 && last <= now <= last + P && last - P < t <= last
    ensures (!Cleared(last, now, P, t % P) && t <= now - P) <==> t < now - P
  {
    SweptRange(last, now, P, t % P);
    ModShift(now, P);
    if t < now - P && t % P == now % P {
      SameSlotFarApart(t, now - P, P);
    }
  }

  lemma StaleSlotLongGap(t: int, last: int, now: int, P: int)
    requires P > 0 && last + P < now < last + 2 * P && last - P < t <= last
    ensures !Cleared(last, now, P, t % P) <==> now - 2 * P < t < last
  {
    ModShift(now, P);
    ModShift(now - P, P);
    ModShift(t, P);
    if t == last {
      assert Swept(last, now - P, P, t % P);
    } else if t < now - 2 * P {
      assert last <= t + P < now - P && (t + P) % P == t % P;
      assert Swept(last, now - P, P, t % P);
    } else if t > now - 2 * P {
      if t % P == now % P {
        SameSlotFarApart(t, now - P, P);
      }
      if Swept(last, now - P, P, t % P) {
        var k :| last <= k < now - P && k % P == t % P;
        SameSlotFarApart(t, k, P);
      }
    }
  }

  /** A second of the old window survives in its slot, but outside the new window, exactly
      when it lies in the stale range. */
  lemma StaleSlot(t: int, last: int, now: int, P: int)
    requires P > 0 && last <= now && last - P < t <= last
    ensures (!Cleared(last, now, P, t % P) && t <= now - P) <==>
            StaleFrom(last, now, P) < t <= StaleTo(last, now, P)
    ensures t > now - P ==> !Cleared(last, now, P, t % P)
  {
    SweptRange(last, now, P, t % P);
    if now - last <= P {
      StaleSlotShortGap(t, last, now, P);
      if t > now - P && t < now && t % P == now % P {
        SameSlotFarApart(t, now, P);
      }
    } else if now - last < 2 * P {
      StaleSlotLongGap(t, last, now, P);
    }
  }

  lemma {:induction false} SlotCountSplit(h: seq<Event>, last: int, now: int, P: int, i: int)
    requires P > 0 && 0 <= i < P && last <= now
    requires forall k :: 0 <= k < |h| ==> h[k].time <= last
    ensures (if Cleared(last, now, P, i) then 0 else SlotCount(h, last - P, last, P, i)) ==
            SlotCount(h, now - P, now, P, i) +
            SlotCount(h, StaleFrom(last, now, P), StaleTo(last, now, P), P, i)
  {
    if h != [] {
      SlotCountSplit(h[..|h|-1], last, now, P, i);
      var t := h[|h|-1].time;
      if t % P == i {
        if last - P < t {
          StaleSlot(t, last, now, P);
        }
        assert StaleFrom(last, now, P) >= last - P;
      }
    }
  }

  /** Starting from an exact meter, the next reading exceeds the truth by exactly the
      events whose seconds left the window without their slots being cleared. */
  lemma OverCount(m: State, h: seq<Event>, e: Event)
    requires Exact(m, h) && m.last <= e.time
    ensures var P := |m.slots|;
            Record(m, e.time, e.n).frequency ==
            Count(h + [e], e.time - P, e.time) +
            Count(h, StaleFrom(m.last, e.time, P), StaleTo(m.last, e.time, P))
  {
    var P, now, last := |m.slots|, e.time, m.last;
    var r, h' := Record(m, now, e.n), h + [e];
    assert h'[..|h'|-1] == h;
    RecordKeepsTotal(m, now, e.n);
    var window := Slots(h', now - P, now, P);
    var stale := Slots(h, StaleFrom(last, now, P), StaleTo(last, now, P), P);
    forall i | 0 <= i < P
      ensures r.slots[i] == window[i] + stale[i]
    {
      RecordSlot(m, now, e.n, i);
      SlotCountSplit(h, last, now, P, i);
    }
    SumAdd(r.slots, window, stale);
    CountIsSumOfSlots(h', now - P, now, P);
    CountIsSumOfSlots(h, StaleFrom(last, now, P), StaleTo(last, now, P), P);
  }

  lemma {:induction false} SumAdd(s: seq<int>, a: seq<int>, b: seq<int>)
    requires |s| == |a| == |b| && forall i :: 0 <= i < |s| ==> s[i] == a[i] + b[i]
    ensures Sum(s) == Sum(a) + Sum(b)
  {
    if s != [] {
      SumAdd(s[1..], a[1..], b[1..]);
    }
  }

  /** Hence the next reading is right if and only if nothing was counted in that range. */
  lemma ExactNextReading(m: State, h: seq<Event>, e: Event)
    requires Exact(m, h) && m.last <= e.time
    ensures var P := |m.slots|;
            Record(m, e.time, e.n).frequency == Count(h + [e], e.time - P, e.time) <==>
            Count(h, StaleFrom(m.last, e.time, P), StaleTo(m.last, e.time, P)) == 0
  {
    OverCount(m, h, e);
  }

  lemma RecordKeepsExact(m: State, h: seq<Event>, e: Event)
    requires Exact(m, h) && m.last <= e.time
    requires e.time - m.last <= 1 || e.time - m.last >= 2 * |m.slots|
    ensures Exact(Record(m, e.time, e.n), h + [e])
  {
    var P, now, last := |m.slots|, e.time, m.last;
    var h' := h + [e];
    assert h'[..|h'|-1] == h;
    RecordKeepsTotal(m, now, e.n);
    forall i | 0 <= i < P
      ensures Record(m, now, e.n).slots[i] == SlotCount(h', now - P, now, P, i)
    {
      RecordSlot(m, now, e.n, i);
      SlotCountSplit(h, last, now, P, i);
      SlotCountNone(h, StaleFrom(last, now, P), StaleTo(last, now, P), P, i);
    }
  }

  /** When every gap between calls is at most a second or at least two periods, every
      reading of the run is the true number of events in the last P seconds. */
  lemma {:induction false} ExactWhenGapsHarmless(P: nat, start: int, h: seq<Event>)
    requires P > 0 && Chronological(h, start) && GapsHarmless(h, start, P)
    ensures var m := RunMeter(Fresh(P, start), h);
            var now := LastTime(h, start);
            Exact(m, h) && m.last == now && m.frequency == Count(h, now - P, now)
    decreases |h|
  {
    var m := RunMeter(Fresh(P, start), h);
    if h == [] {
      SumZero(m.slots);
    } else {
      var h0, e := h[..|h|-1], h[|h|-1];
      ExactWhenGapsHarmless(P, start, h0);
      RecordKeepsExact(RunMeter(Fresh(P, start), h0), h0, e);
      assert h0 + [e] == h;
      CountIsSumOfSlots(h, m.last - P, m.last, P);
      assert m.slots == Slots(h, m.last - P, m.last, P);
    }
  }

  lemma RunStep(m: State, h: seq<Event>, e: Event)
    requires |m.slots| > 0
    ensures RunMeter(m, h + [e]) == Record(RunMeter(m, h), e.time, e.n)
  {
    assert (h + [e])[..|h + [e]| - 1] == h;
  }

  /** One more call, seen from the history: what its reading is worth. */
  lemma ReadingGuarantees(P: nat, start: int, h: seq<Event>, e: Event)
    requires P > 0 && Chronological(h, start) && LastTime(h, start) <= e.time
    ensures var h' := h + [e];
            var m := RunMeter(Fresh(P, start), h');
            && m == Record(RunMeter(Fresh(P, start), h), e.time, e.n)
            && Chronological(h', start) && LastTime(h', start) == e.time
            && (NonNegative(h') ==> m.frequency >= Count(h', e.time - P, e.time))
            && (GapsHarmless(h', start, P) ==> m.frequency == Count(h', e.time - P, e.time))
  {
    var h' := h + [e];
    assert h'[..|h'|-1] == h;
    if NonNegative(h') {
      NeverUndercounts(P, start, h');
    }
    if GapsHarmless(h', start, P) {
      ExactWhenGapsHarmless(P, start, h');
    }
  }

  /** A gap in between does over-count: with a period of 3 seconds, an event at second 1
      is still reported at second 5 when the meter is also read at second 3. */
  lemma OverCountsAfterShortGap()
    ensures var h := [Event(1, 1), Event(3, 0), Event(5, 0)];
            Chronological(h, 0) && NonNegative(h) &&
            Count(h, 2, 5) == 0 && RunMeter(Fresh(3, 0), h) == State([0, 1, 0], 1, 5)
  {
    var h1, h2 := [Event(1, 1)], [Event(1, 1), Event(3, 0)];
    var h := [Event(1, 1), Event(3, 0), Event(5, 0)];
    assert h == h2 + [Event(5, 0)] && h2 == h1 + [Event(3, 0)] && h1 == [] + [Event(1, 1)];
    assert h[..2] == h2 && h2[..1] == h1 && h1[..0] == [];
    var m0 := Fresh(3, 0);
    RunStep(m0, [], Event(1, 1));
    RunStep(m0, h1, Event(3, 0));
    RunStep(m0, h2, Event(5, 0));
    assert RunMeter(m0, h1) == State([0, 1, 0], 1, 1);
    assert RunMeter(m0, h2) == State([0, 1, 0], 1, 3);
    assert RunMeter(m0, h) == State([0, 1, 0], 1, 5);
  }

  // ---- By how much it exceeds the truth, over any run ----

  function TimeBefore(h: seq<Event>, start: int, j: nat): int
    requires j <= |h|
  {
    LastTime(h[..j], start)
  }

  /** No call after call k cleared the slot that call k counted in. */
  ghost predicate Stays(h: seq<Event>, start: int, P: int, k: nat)
    requires P > 0 && k < |h|
  {
    forall j :: k < j < |h| ==> !Cleared(TimeBefore(h, start, j), h[j].time, P, h[k].time % P)
  }

  /** An event that has left the window of the last P seconds and is still in its slot. */
  ghost predicate Stale(h: seq<Event>, start: int, P: int, k: nat)
    requires P > 0 && k < |h|
  {
    h[k].time <= LastTime(h, start) - P && Stays(h, start, P, k)
  }

  /** The stale events among the first n calls, counted. */
  ghost function StaleCount(h: seq<Event>, start: int, P: int, n: nat): int
    requires P > 0 && n <= |h|
  {
    if n == 0 then 0
    else StaleCount(h, start, P, n - 1) + (if Stale(h, start, P, n - 1) then h[n-1].n else 0)
  }

  /** As StaleCount, for slot i. */
  ghost function StaleInSlot(h: seq<Event>, start: int, P: int, n: nat, i: int): int
    requires P > 0 && n <= |h|
  {
    if n == 0 then 0
    else StaleInSlot(h, start, P, n - 1, i) +
         (if Stale(h, start, P, n - 1) && h[n-1].time % P == i then h[n-1].n else 0)
  }

  /** The events among the first n calls that are still in slot i. */
  ghost function Held(h: seq<Event>, start: int, P: int, n: nat, i: int): int
    requires P > 0 && n <= |h|
  {
    if n == 0 then 0
    else Held(h, start, P, n - 1, i) +
         (if Stays(h, start, P, n - 1) && h[n-1].time % P == i then h[n-1].n else 0)
  }

  lemma StaysStep(h: seq<Event>, start: int, P: int, k: nat)
    requires P > 0 && h != [] && k < |h| - 1
    ensures var h0, last := h[..|h|-1], |h| - 1;
            Stays(h, start, P, k) <==>
            Stays(h0, start, P, k) && !Cleared(TimeBefore(h, start, last), h[last].time, P, h[k].time % P)
  {
    var h0, last := h[..|h|-1], |h| - 1;
    assert forall j :: 0 <= j < last ==> h0[j] == h[j] && h0[..j] == h[..j];
    if Stays(h, start, P, k) {
      forall j | k < j < |h0|
        ensures !Cleared(TimeBefore(h0, start, j), h0[j].time, P, h0[k].time % P)
      {
        assert TimeBefore(h0, start, j) == TimeBefore(h, start, j);
      }
    }
    if Stays(h0, start, P, k) && !Cleared(TimeBefore(h, start, last), h[last].time, P, h[k].time % P) {
      forall j | k < j < |h|
        ensures !Cleared(TimeBefore(h, start, j), h[j].time, P, h[k].time % P)
      {
        if j < last {
          assert TimeBefore(h0, start, j) == TimeBefore(h, start, j);
        }
      }
    }
  }

  lemma {:induction false} HeldStep(h: seq<Event>, start: int, P: int, n: nat, i: int)
    requires P > 0 && h != [] && n <= |h| - 1
    ensures var h0, last := h[..|h|-1], |h| - 1;
            Held(h, start, P, n, i) ==
            if Cleared(TimeBefore(h, start, last), h[last].time, P, i) then 0 else Held(h0, start, P, n, i)
  {
    if n > 0 {
      HeldStep(h, start, P, n - 1, i);
      StaysStep(h, start, P, n - 1);
      assert h[..|h|-1][n-1] == h[n-1];
    }
  }

  /** Slot i of the meter holds exactly the events whose slot no later call cleared. */
  lemma {:induction false} SlotsHold(P: nat, start: int, h: seq<Event>, i: nat)
    requires P > 0 && i < P && Chronological(h, start)
    ensures RunMeter(Fresh(P, start), h).slots[i] == Held(h, start, P, |h|, i)
    ensures RunMeter(Fresh(P, start), h).last == LastTime(h, start)
    decreases |h|
  {
    if h != [] {
      var h0, e := h[..|h|-1], h[|h|-1];
      SlotsHold(P, start, h0, i);
      RecordSlot(RunMeter(Fresh(P, start), h0), e.time, e.n, i);
      HeldStep(h, start, P, |h| - 1, i);
    }
  }

  lemma WindowStays(h: seq<Event>, start: int, P: int, k: nat)
    requires P > 0 && Chronological(h, start) && k < |h| && h[k].time > LastTime(h, start) - P
    ensures Stays(h, start, P, k)
  {
    forall j | k < j < |h|
      ensures !Cleared(TimeBefore(h, start, j), h[j].time, P, h[k].time % P)
    {
      PrefixIsChronological(h, start, j);
      HistoryBounds(h[..j], start);
      HistoryBounds(h, start);
      assert h[..j][k] == h[k];
      if h[k].time % P == h[j].time % P && h[k].time != h[j].time {
        SameSlotFarApart(h[k].time, h[j].time, P);
      }
    }
  }

  lemma {:induction false} PrefixIsChronological(h: seq<Event>, start: int, j: nat)
    requires Chronological(h, start) && j <= |h|
    ensures Chronological(h[..j], start)
    ensures j < |h| ==> LastTime(h[..j], start) <= h[j].time
    decreases |h|
  {
    if j < |h| {
      if j == |h| - 1 {
      } else {
        PrefixIsChronological(h[..|h|-1], start, j);
        assert h[..|h|-1][..j] == h[..j];
      }
    } else {
      assert h[..j] == h;
    }
  }

  lemma {:induction false} HeldSplits(h: seq<Event>, start: int, P: int, n: nat, i: int)
    requires P > 0 && Chronological(h, start) && n <= |h|
    ensures var now := LastTime(h, start);
            Held(h, start, P, n, i) == SlotCount(h[..n], now - P, now, P, i) + StaleInSlot(h, start, P, n, i)
  {
    if n > 0 {
      HeldSplits(h, start, P, n - 1, i);
      HistoryBounds(h, start);
      assert h[..n][..n-1] == h[..n-1];
      if h[n-1].time > LastTime(h, start) - P {
        WindowStays(h, start, P, n - 1);
      }
    }
  }

  ghost function StaleSlots(h: seq<Event>, start: int, P: nat, n: nat): (r: seq<int>)
    requires P > 0 && n <= |h|
    ensures |r| == P && forall i :: 0 <= i < P ==> r[i] == StaleInSlot(h, start, P, n, i)
  {
    seq(P, i => StaleInSlot(h, start, P, n, i))
  }

  lemma {:induction false} StaleIsSumOfSlots(h: seq<Event>, start: int, P: nat, n: nat)
    requires P > 0 && n <= |h|
    ensures Sum(StaleSlots(h, start, P, n)) == StaleCount(h, start, P, n)
  {
    var all := StaleSlots(h, start, P, n);
    if n == 0 {
      SumZero(all);
    } else {
      var rest := StaleSlots(h, start, P, n - 1);
      StaleIsSumOfSlots(h, start, P, n - 1);
      if Stale(h, start, P, n - 1) {
        var k := h[n-1].time % P;
        assert all == rest[k := rest[k] + h[n-1].n];
        SumUpdate(rest, k, rest[k] + h[n-1].n);
      } else {
        assert all == rest;
      }
    }
  }

  lemma SlotIs(P: nat, start: int, h: seq<Event>, i: nat)
    requires P > 0 && i < P && Chronological(h, start)
    ensures var now := LastTime(h, start);
            RunMeter(Fresh(P, start), h).slots[i] ==
            SlotCount(h, now - P, now, P, i) + StaleInSlot(h, start, P, |h|, i)
  {
    SlotsHold(P, start, h, i);
    HeldSplits(h, start, P, |h|, i);
    assert h[..|h|] == h;
  }

  /** For every history of a clock that does not go back, the reading is the true number of
      events in the last P seconds plus the stale events: those that left the window while
      no later call cleared their slot. */
  lemma ReadingIs(P: nat, start: int, h: seq<Event>)
    requires P > 0 && Chronological(h, start)
    ensures var now := LastTime(h, start);
            RunMeter(Fresh(P, start), h).frequency == Count(h, now - P, now) + StaleCount(h, start, P, |h|)
  {
    RunKeepsTotal(P, start, h);
    RunSplits(P, start, h);
    TotalSplits(RunMeter(Fresh(P, start), h), h, start, P);
  }

  /** Every slot of a meter holds its part of the window and its stale events. */
  ghost predicate SlotsSplit(m: State, h: seq<Event>, start: int, P: nat) {
    && |m.slots| == P > 0
    && forall i :: 0 <= i < P ==>
         m.slots[i] == SlotCount(h, LastTime(h, start) - P, LastTime(h, start), P, i) + StaleInSlot(h, start, P, |h|, i)
  }

  lemma RunSplits(P: nat, start: int, h: seq<Event>)
    requires P > 0 && Chronological(h, start)
    ensures SlotsSplit(RunMeter(Fresh(P, start), h), h, start, P)
  {
    forall i | 0 <= i < P
      ensures RunMeter(Fresh(P, start), h).slots[i] ==
              SlotCount(h, LastTime(h, start) - P, LastTime(h, start), P, i) + StaleInSlot(h, start, P, |h|, i)
    {
      SlotIs(P, start, h, i);
    }
  }

  lemma TotalSplits(m: State, h: seq<Event>, start: int, P: nat)
    requires SlotsSplit(m, h, start, P)
    ensures var now := LastTime(h, start);
            Sum(m.slots) == Count(h, now - P, now) + StaleCount(h, start, P, |h|)
  {
    var now := LastTime(h, start);
    SumAdd(m.slots, Slots(h, now - P, now, P), StaleSlots(h, start, P, |h|));
    CountIsSumOfSlots(h, now - P, now, P);
    StaleIsSumOfSlots(h, start, P, |h|);
  }

  lemma {:induction false} RunKeepsTotal(P: nat, start: int, h: seq<Event>)
    requires P > 0
    ensures RunMeter(Fresh(P, start), h).frequency == Sum(RunMeter(Fresh(P, start), h).slots)
    decreases |h|
  {
    if h == [] {
      SumZero(Fresh(P, start).slots);
    } else {
      RunKeepsTotal(P, start, h[..|h|-1]);
      RecordKeepsTotal(RunMeter(Fresh(P, start), h[..|h|-1]), h[|h|-1].time, h[|h|-1].n);
    }
  }

  lemma {:induction false} StaleCountSign(h: seq<Event>, start: int, P: int, n: nat)
    requires P > 0 && NonNegative(h) && n <= |h|
    ensures StaleCount(h, start, P, n) >= 0
    ensures StaleCount(h, start, P, n) == 0 <==> forall k :: 0 <= k < n && Stale(h, start, P, k) ==> h[k].n == 0
  {
    if n > 0 {
      StaleCountSign(h, start, P, n - 1);
    }
  }

  /** So for events that are not negative a reading of any run is right if and only if every
      event that has left the window had its slot cleared by some later call. */
  lemma ReadingIsRight(P: nat, start: int, h: seq<Event>)
    requires P > 0 && Chronological(h, start) && NonNegative(h)
    ensures var now := LastTime(h, start);
            RunMeter(Fresh(P, start), h).frequency == Count(h, now - P, now) <==>
            forall k :: 0 <= k < |h| && h[k].n > 0 && h[k].time <= now - P ==>
              exists j :: k < j < |h| && Cleared(TimeBefore(h, start, j), h[j].time, P, h[k].time % P)
  {
    ReadingIs(P, start, h);
    StaleCountSign(h, start, P, |h|);
    forall k | 0 <= k < |h|
      ensures Stays(h, start, P, k) <==>
                !exists j :: k < j < |h| && Cleared(TimeBefore(h, start, j), h[j].time, P, h[k].time % P)
    {
    }
  }

  /** An over-count can last: after the calls of `OverCountsAfterShortGap` a further call
      one second later still reports the event, although its own stale range counts nothing. */
  lemma OverCountLasts()
    ensures var h := [Event(1, 1), Event(3, 0), Event(5, 0), Event(6, 0)];
            && Chronological(h, 0) && NonNegative(h)
            && Count(h[..3], StaleFrom(5, 6, 3), StaleTo(5, 6, 3)) == 0
            && Count(h, 3, 6) == 0 && RunMeter(Fresh(3, 0), h).frequency == 1
  {
    var h1, h2 := [Event(1, 1)], [Event(1, 1), Event(3, 0)];
    var h3 := [Event(1, 1), Event(3, 0), Event(5, 0)];
    var h := [Event(1, 1), Event(3, 0), Event(5, 0), Event(6, 0)];
    OverCountsAfterShortGap();
    assert h == h3 + [Event(6, 0)] && h[..3] == h3 && h3[..2] == h2 && h2[..1] == h1 && h1[..0] == [];
    assert Count(h1, 2, 2) == 0 && Count(h2, 2, 2) == 0;
    assert Count(h1, 3, 6) == 0 && Count(h2, 3, 6) == 0 && Count(h3, 3, 6) == 0;
    RunStep(Fresh(3, 0), h3, Event(6, 0));
    assert Record(State([0, 1, 0], 1, 5), 6, 0) == State([0, 1, 0], 1, 6);
  }

  lemma LastCall(h: seq<Event>, start: int, e: Event)
    requires Chronological(h + [e], start)
    ensures Chronological(h, start) && LastTime(h, start) <= e.time
  {
    assert (h + [e])[..|h + [e]| - 1] == h;
  }

  /** One more call: what its reading is worth. */
  lemma ReadingWorth(P: nat, start: int, h: seq<Event>, e: Event)
    requires P > 0 && Chronological(h + [e], start)
    ensures var h' := h + [e];
            var r := RunMeter(Fresh(P, start), h').frequency;
            && LastTime(h', start) == e.time
            && r == Count(h', e.time - P, e.time) + StaleCount(h', start, P, |h'|)
            && (NonNegative(h') ==> r >= Count(h', e.time - P, e.time))
            && (GapsHarmless(h', start, P) ==> r == Count(h', e.time - P, e.time))
  {
    LastCall(h, start, e);
    ReadingIs(P, start, h + [e]);
    ReadingGuarantees(P, start, h, e);
  }

  // ---- The meter object ----

  class Meter {
    const periodSeconds: int
    const eventCount: array<int>
    var lastEventTime: int
    var frequency: int
    /** Every call so far, and the clock second of construction. */
    ghost var history: seq<Event>
    ghost const start: int

    ghost function Abs(): State
      reads this, eventCount
    {
      State(eventCount[..], frequency, lastEventTime)
    }

    ghost predicate Valid()
      reads this, eventCount
    {
      && periodSeconds == eventCount.Length > 0
      && Abs() == RunMeter(Fresh(periodSeconds, start), history)
      && lastEventTime == LastTime(history, start)
    }

    constructor (period: int, now: int)
      requires period > 0
      ensures Valid() && fresh(eventCount)
      ensures periodSeconds == period && history == [] && start == now
    {
      periodSeconds := period;
      eventCount := new int[period];
      frequency := 0;
      lastEventTime := now;
      history := [];
      start := now;
      new;
      var i := 0;
      while i < periodSeconds
        invariant 0 <= i <= periodSeconds
        invariant forall k :: 0 <= k < i ==> eventCount[k] == 0
        invariant frequency == 0 && lastEventTime == now && history == []
        modifies eventCount
      {
        eventCount[i] := 0;
        i := i + 1;
      }
      assert eventCount[..] == Fresh(period, now).slots;
    }

    /** The arithmetic of `event`: what it does to the slots, the total and the time. */
    method Advance(now: int, n: int)
      requires eventCount.Length == periodSeconds > 0
      modifies this`lastEventTime, this`frequency, eventCount
      ensures Abs() == Record(old(Abs()), now, n)
    {
      ghost var m0 := Abs();
      ghost var m1 := if lastEventTime != now then ClearSlot(m0, now % periodSeconds) else m0;
      if lastEventTime != now {
        frequency := frequency - eventCount[now % periodSeconds];
        eventCount[now % periodSeconds] := 0;
      }
      assert Abs() == m1;
      while lastEventTime < now - periodSeconds
        invariant Sweep(Abs(), now - periodSeconds) == Sweep(m1, now - periodSeconds)
        decreases now - periodSeconds - lastEventTime
      {
        ghost var before := Abs();
        frequency := frequency - eventCount[lastEventTime % periodSeconds];
        eventCount[lastEventTime % periodSeconds] := 0;
        lastEventTime := lastEventTime + 1;
        assert Abs() == ClearSlot(before, before.last % periodSeconds).(last := before.last + 1);
      }
      lastEventTime := now;
      eventCount[lastEventTime % periodSeconds] := eventCount[lastEventTime % periodSeconds] + n;
      frequency := frequency + n;
    }

    /** Reports n events at clock second `now`; n = 0 just reads the meter. */
    method RecordEvent(now: int, n: int) returns (r: int)
      requires Valid()
      modifies this, eventCount
      ensures Valid() && history == old(history) + [Event(now, n)]
      ensures Abs() == Record(old(Abs()), now, n) && r == frequency
      ensures Chronological(history, start) ==>
                r == Count(history, now - periodSeconds, now) + StaleCount(history, start, periodSeconds, |history|)
      ensures Chronological(history, start) && NonNegative(history) ==> r >= Count(history, now - periodSeconds, now)
      ensures Chronological(history, start) && GapsHarmless(history, start, periodSeconds) ==>
                r == Count(history, now - periodSeconds, now)
    {
      RunStep(Fresh(periodSeconds, start), history, Event(now, n));
      if Chronological(history + [Event(now, n)], start) {
        ReadingWorth(periodSeconds, start, history, Event(now, n));
      }
      Advance(now, n);
      history := history + [Event(now, n)];
      r := frequency;
    }
  }
}
