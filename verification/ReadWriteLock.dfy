/** The writer-priority read/write lock: its condition-variable protocol as a state
    machine over threads, the lock object whose mutex-protected sections realise the
    steps, and what every interleaving of those steps keeps. */
module ReadWriteLock {

  type Tid = nat

  /** Where a thread is with respect to the lock. A thread that is inside `lock_read` or
      `lock_write` is either asleep on a condition variable or awake and about to (re)test
      its wait condition under the mutex. */
  datatype Pc =
    | Idle
    | ReadPending
    | ReadAsleep
    | Reading
    | WriteEntering // inside lock_write, not yet counted as waiting
    | WritePending  // counted as waiting, awake
    | WriteAsleep   // counted as waiting, asleep
    | Writing

  /** The three counters of the lock together with every thread's position. */
  datatype State = State(readers: int, writers: int, waiting: int, pc: map<Tid, Pc>)

  /** One atomic step of one thread. `Spurious` is a wake-up nobody asked for. */
  datatype Action =
    | CallRead(t: Tid)
    | TestRead(t: Tid)
    | CallWrite(t: Tid)
    | EnterWrite(t: Tid)
    | TestWrite(t: Tid)
    | UnlockRead(t: Tid)
    | UnlockWrite(t: Tid)
    | Spurious(t: Tid)

  function At(pc: map<Tid, Pc>, p: Pc): set<Tid> {
    set t | t in pc && pc[t] == p
  }

  function WakeWriters(pc: map<Tid, Pc>): map<Tid, Pc> {
    map t | t in pc :: if pc[t] == WriteAsleep then WritePending else pc[t]
  }

  function WakeReaders(pc: map<Tid, Pc>): map<Tid, Pc> {
    map t | t in pc :: if pc[t] == ReadAsleep then ReadPending else pc[t]
  }

  predicate ReaderMustWait(s: State) {
    s.writers > 0 || s.waiting > 0
  }

  predicate WriterMustWait(s: State) {
    s.writers > 0 || s.readers > 0
  }

  predicate Enabled(s: State, a: Action) {
    a.t in s.pc &&
    match a
    case CallRead(t) => s.pc[t] == Idle
    case TestRead(t) => s.pc[t] == ReadPending
    case CallWrite(t) => s.pc[t] == Idle
    case EnterWrite(t) => s.pc[t] == WriteEntering
    case TestWrite(t) => s.pc[t] == WritePending
    case UnlockRead(t) => s.pc[t] == Reading
    case UnlockWrite(t) => s.pc[t] == Writing
    case Spurious(t) => s.pc[t] == ReadAsleep || s.pc[t] == WriteAsleep
  }

  /** The wait loop of `lock_write`, one test, for a thread already counted as waiting. */
  function TestWriteCondition(s: State, t: Tid): State {
    if WriterMustWait(s) then
      s.(pc := s.pc[t := WriteAsleep])
    else
      s.(waiting := s.waiting - 1, writers := s.writers + 1, pc := s.pc[t := Writing])
  }

  function Apply(s: State, a: Action): State
    requires Enabled(s, a)
  {
    match a
    case CallRead(t) => s.(pc := s.pc[t := ReadPending])
    case TestRead(t) =>
      if ReaderMustWait(s) then s.(pc := s.pc[t := ReadAsleep])
      else s.(readers := s.readers + 1, pc := s.pc[t := Reading])
    case CallWrite(t) => s.(pc := s.pc[t := WriteEntering])
    case EnterWrite(t) => TestWriteCondition(s.(waiting := s.waiting + 1), t)
    case TestWrite(t) => TestWriteCondition(s, t)
    case UnlockRead(t) =>
      var s' := s.(readers := s.readers - 1, pc := s.pc[t := Idle]);
      if s'.readers == 0 && s'.writers == 0 then s'.(pc := WakeWriters(s'.pc)) else s'
    case UnlockWrite(t) =>
      var s' := s.(writers := s.writers - 1, pc := s.pc[t := Idle]);
      if s'.writers == 0 then s'.(pc := WakeWriters(WakeReaders(s'.pc))) else s'
    case Spurious(t) =>
      s.(pc := s.pc[t := if s.pc[t] == ReadAsleep then ReadPending else WritePending])
  }

  predicate CanRun(s: State, run: seq<Action>)
    decreases |run|
  {
    run == [] || (Enabled(s, run[0]) && CanRun(Apply(s, run[0]), run[1..]))
  }

  function Exec(s: State, run: seq<Action>): State
    requires CanRun(s, run)
    decreases |run|
  {
    if run == [] then s else Exec(Apply(s, run[0]), run[1..])
  }

  function Init(threads: set<Tid>): State {
    State(0, 0, 0, map t | t in threads :: Idle)
  }

  // ---- What every reachable state satisfies ----

  function N(pc: map<Tid, Pc>, p: Pc): nat {
    |At(pc, p)|
  }

  ghost predicate CountersAgree(s: State) {
    && s.readers == N(s.pc, Reading)
    && s.writers == N(s.pc, Writing)
    && s.waiting == N(s.pc, WritePending) + N(s.pc, WriteAsleep)
  }

  ghost predicate Exclusive(s: State) {
    && N(s.pc, Writing) <= 1
    && (N(s.pc, Writing) > 0 ==> N(s.pc, Reading) == 0)
  }

  /** Every sleeper's wait condition is still true: nobody sleeps through its wake-up. */
  ghost predicate NoLostWakeup(s: State) {
    && (forall t :: t in s.pc && s.pc[t] == ReadAsleep ==> ReaderMustWait(s))
    && (forall t :: t in s.pc && s.pc[t] == WriteAsleep ==> WriterMustWait(s))
  }

  ghost predicate Inv(s: State) {
    CountersAgree(s) && Exclusive(s) && NoLostWakeup(s)
  }

  lemma MoveIn(pc: map<Tid, Pc>, t: Tid, q: Pc)
    requires t in pc && pc[t] != q
    ensures N(pc[t := q], q) == N(pc, q) + 1
  {
    assert At(pc[t := q], q) == At(pc, q) + {t};
  }

  lemma MoveOut(pc: map<Tid, Pc>, t: Tid, q: Pc)
    requires t in pc && pc[t] != q
    ensures N(pc[t := q], pc[t]) == N(pc, pc[t]) - 1
  {
    assert t in At(pc, pc[t]);
    assert At(pc[t := q], pc[t]) == At(pc, pc[t]) - {t};
  }

  lemma MovePast(pc: map<Tid, Pc>, t: Tid, q: Pc, p: Pc)
    requires t in pc && p != q && p != pc[t]
    ensures N(pc[t := q], p) == N(pc, p)
  {
    assert At(pc[t := q], p) == At(pc, p);
  }

  lemma MoveCount(pc: map<Tid, Pc>, t: Tid, q: Pc, p: Pc)
    requires t in pc && pc[t] != q
    ensures N(pc[t := q], p) ==
            if p == q then N(pc, p) + 1 else if p == pc[t] then N(pc, p) - 1 else N(pc, p)
  {
    if p == q {
      MoveIn(pc, t, q);
    } else if p == pc[t] {
      MoveOut(pc, t, q);
    } else {
      MovePast(pc, t, q, p);
    }
  }

  lemma MoveThread(pc: map<Tid, Pc>, t: Tid, q: Pc)
    requires t in pc && pc[t] != q
    ensures var pc' := pc[t := q];
            && N(pc', Reading) == N(pc, Reading) - (if pc[t] == Reading then 1 else 0) + (if q == Reading then 1 else 0)
            && N(pc', Writing) == N(pc, Writing) - (if pc[t] == Writing then 1 else 0) + (if q == Writing then 1 else 0)
            && N(pc', WritePending) + N(pc', WriteAsleep) ==
               N(pc, WritePending) + N(pc, WriteAsleep)
               - (if pc[t] == WritePending || pc[t] == WriteAsleep then 1 else 0)
               + (if q == WritePending || q == WriteAsleep then 1 else 0)
  {
    MoveCount(pc, t, q, Reading);
    MoveCount(pc, t, q, Writing);
    MoveCount(pc, t, q, WritePending);
    MoveCount(pc, t, q, WriteAsleep);
  }

  lemma WakingKeepsCounts(pc: map<Tid, Pc>)
    ensures var pc' := WakeWriters(pc);
            && N(pc', Reading) == N(pc, Reading) && N(pc', Writing) == N(pc, Writing)
            && N(pc', WritePending) + N(pc', WriteAsleep) == N(pc, WritePending) + N(pc, WriteAsleep)
    ensures var pc' := WakeReaders(pc);
            && N(pc', Reading) == N(pc, Reading) && N(pc', Writing) == N(pc, Writing)
            && N(pc', WritePending) == N(pc, WritePending) && N(pc', WriteAsleep) == N(pc, WriteAsleep)
  {
    var w, r := WakeWriters(pc), WakeReaders(pc);
    assert At(w, Reading) == At(pc, Reading) && At(w, Writing) == At(pc, Writing);
    assert At(w, WriteAsleep) == {};
    assert At(w, WritePending) == At(pc, WritePending) + At(pc, WriteAsleep);
    assert At(pc, WritePending) !! At(pc, WriteAsleep);
    assert At(r, Reading) == At(pc, Reading) && At(r, Writing) == At(pc, Writing);
    assert At(r, WritePending) == At(pc, WritePending) && At(r, WriteAsleep) == At(pc, WriteAsleep);
  }

  lemma InitInv(threads: set<Tid>)
    ensures Inv(Init(threads))
  {
    var pc := Init(threads).pc;
    assert At(pc, Reading) == {} && At(pc, Writing) == {};
    assert At(pc, WritePending) == {} && At(pc, WriteAsleep) == {};
  }

  /** The wait-loop test of a writer that is already counted, or is being counted now. */
  lemma TestWriteKeepsInv(s: State, t: Tid)
    requires Inv(s) && t in s.pc && (s.pc[t] == WriteEntering || s.pc[t] == WritePending)
    ensures Inv(TestWriteCondition(
                  if s.pc[t] == WriteEntering then s.(waiting := s.waiting + 1) else s, t))
  {
    MoveThread(s.pc, t, if WriterMustWait(s) then WriteAsleep else Writing);
  }

  lemma UnlockReadKeepsInv(s: State, t: Tid)
    requires Inv(s) && Enabled(s, UnlockRead(t))
    ensures Inv(Apply(s, UnlockRead(t)))
  {
    MoveThread(s.pc, t, Idle);
    WakingKeepsCounts(s.pc[t := Idle]);
  }

  lemma UnlockWriteKeepsInv(s: State, t: Tid)
    requires Inv(s) && Enabled(s, UnlockWrite(t))
    ensures Inv(Apply(s, UnlockWrite(t)))
  {
    var pc := s.pc[t := Idle];
    MoveThread(s.pc, t, Idle);
    WakingKeepsCounts(pc);
    WakingKeepsCounts(WakeReaders(pc));
  }

  lemma MoveKeepsInv(s: State, t: Tid, q: Pc, s': State)
    requires Inv(s) && t in s.pc && s.pc[t] != q
    requires s.pc[t] in {Idle, ReadPending, ReadAsleep, WriteAsleep}
    requires q in {ReadPending, WriteEntering, ReadAsleep, WritePending, Reading}
    requires q == WritePending <==> s.pc[t] == WriteAsleep
    requires q == ReadAsleep ==> ReaderMustWait(s)
    requires q == Reading ==> !ReaderMustWait(s)
    requires s' == s.(pc := s.pc[t := q], readers := if q == Reading then s.readers + 1 else s.readers)
    ensures Inv(s')
  {
    MoveThread(s.pc, t, q);
  }

  lemma StepKeepsInv(s: State, a: Action)
    requires Inv(s) && Enabled(s, a)
    ensures Inv(Apply(s, a))
    ensures Apply(s, a).pc.Keys == s.pc.Keys
  {
    match a
    case CallRead(t) => MoveKeepsInv(s, t, ReadPending, Apply(s, a));
    case TestRead(t) =>
      MoveKeepsInv(s, t, if ReaderMustWait(s) then ReadAsleep else Reading, Apply(s, a));
    case CallWrite(t) => MoveKeepsInv(s, t, WriteEntering, Apply(s, a));
    case EnterWrite(t) => TestWriteKeepsInv(s, t);
    case TestWrite(t) => TestWriteKeepsInv(s, t);
    case UnlockRead(t) => UnlockReadKeepsInv(s, t);
    case UnlockWrite(t) => UnlockWriteKeepsInv(s, t);
    case Spurious(t) =>
      MoveKeepsInv(s, t, if s.pc[t] == ReadAsleep then ReadPending else WritePending, Apply(s, a));
  }

  /** Counter agreement, exclusion and the absence of lost wake-ups hold after every
      interleaving of the threads' steps. */
  lemma {:induction false} RunKeepsInv(s: State, run: seq<Action>)
    requires Inv(s) && CanRun(s, run)
    ensures Inv(Exec(s, run))
    ensures Exec(s, run).pc.Keys == s.pc.Keys
    decreases |run|
  {
    if run != [] {
      StepKeepsInv(s, run[0]);
      RunKeepsInv(Apply(s, run[0]), run[1..]);
    }
  }

  lemma EveryRunIsSafe(threads: set<Tid>, run: seq<Action>)
    requires CanRun(Init(threads), run)
    ensures var s := Exec(Init(threads), run);
            CountersAgree(s) && Exclusive(s) && NoLostWakeup(s)
  {
    InitInv(threads);
    RunKeepsInv(Init(threads), run);
  }

  // ---- Deadlock freedom ----

  ghost predicate Holds(s: State, t: Tid) {
    t in s.pc && (s.pc[t] == Reading || s.pc[t] == Writing)
  }

  lemma NonEmpty(pc: map<Tid, Pc>, p: Pc) returns (u: Tid)
    requires N(pc, p) > 0
    ensures u in pc && pc[u] == p
  {
    u :| u in At(pc, p);
  }

  /** Whenever some thread sleeps, another one holds the lock or is an awake writer. */
  lemma SleeperHasWaker(s: State, t: Tid) returns (u: Tid)
    requires Inv(s) && t in s.pc && (s.pc[t] == ReadAsleep || s.pc[t] == WriteAsleep)
    ensures u in s.pc && u != t
    ensures Holds(s, u) || (s.pc[u] == WritePending && Enabled(s, TestWrite(u)))
  {
    if s.readers > 0 {
      u := NonEmpty(s.pc, Reading);
    } else if s.writers > 0 {
      u := NonEmpty(s.pc, Writing);
    } else if N(s.pc, WritePending) > 0 {
      u := NonEmpty(s.pc, WritePending);
    } else {
      u := NonEmpty(s.pc, WriteAsleep);
    }
  }

  function Busy(s: State): set<Tid> {
    set t | t in s.pc && s.pc[t] != Idle
  }

  function Holders(s: State): set<Tid> {
    set t | t in s.pc && (s.pc[t] == Reading || s.pc[t] == Writing)
  }

  function Remaining(s: State): int {
    2 * |Busy(s)| - |Holders(s)|
  }

  lemma ReleaseProgress(s: State, t: Tid)
    requires Inv(s) && Holds(s, t)
    ensures var a := if s.pc[t] == Reading then UnlockRead(t) else UnlockWrite(t);
            && Enabled(s, a) && Busy(Apply(s, a)) == Busy(s) - {t}
            && Remaining(Apply(s, a)) < Remaining(s)
  {
    var a := if s.pc[t] == Reading then UnlockRead(t) else UnlockWrite(t);
    assert Busy(Apply(s, a)) == Busy(s) - {t};
    assert Holders(Apply(s, a)) == Holders(s) - {t};
    assert t in Busy(s) && t in Holders(s);
  }

  lemma NoHolderCounts(s: State)
    requires Inv(s) && Holders(s) == {}
    ensures !WriterMustWait(s) && N(s.pc, WriteAsleep) == 0
    ensures N(s.pc, WritePending) == 0 ==> !ReaderMustWait(s)
  {
    assert At(s.pc, Reading) <= Holders(s) && At(s.pc, Writing) <= Holders(s);
    assert At(s.pc, Reading) == {} && At(s.pc, Writing) == {};
    assert At(s.pc, WriteAsleep) == {};
  }

  lemma AdmitProgress(s: State, a: Action)
    requires Holders(s) == {} && Enabled(s, a)
    requires a.EnterWrite? || a.TestWrite? || a.TestRead?
    requires if a.TestRead? then !ReaderMustWait(s) else !WriterMustWait(s)
    ensures Busy(Apply(s, a)) == Busy(s) && Remaining(Apply(s, a)) < Remaining(s)
  {
    assert Busy(Apply(s, a)) == Busy(s);
    assert Holders(Apply(s, a)) == {a.t};
  }

  /** A step that finishes or admits a thread that has already called the lock. */
  lemma ProgressStep(s: State) returns (a: Action)
    requires Inv(s) && Busy(s) != {}
    ensures Enabled(s, a) && !a.CallRead? && !a.CallWrite? && !a.Spurious?
    ensures Busy(Apply(s, a)) <= Busy(s)
    ensures Remaining(Apply(s, a)) < Remaining(s)
  {
    if Holders(s) != {} {
      var t :| t in Holders(s);
      ReleaseProgress(s, t);
      a := if s.pc[t] == Reading then UnlockRead(t) else UnlockWrite(t);
    } else {
      NoHolderCounts(s);
      var t :| t in Busy(s);
      assert t !in Holders(s) && t !in At(s.pc, WriteAsleep);
      if s.pc[t] == WriteEntering {
        a := EnterWrite(t);
      } else if N(s.pc, WritePending) > 0 {
        t := NonEmpty(s.pc, WritePending);
        a := TestWrite(t);
      } else {
        assert t !in At(s.pc, WritePending);
        a := TestRead(t);
      }
      AdmitProgress(s, a);
    }
  }

  /** No reachable state is stuck: without new calls and without spurious wake-ups the
      lock can always be drained, in at most two steps per busy thread, until every
      thread has acquired, released and gone home. */
  lemma {:induction false} EveryStateDrains(s: State) returns (run: seq<Action>)
    requires Inv(s)
    ensures CanRun(s, run) && |run| <= 2 * |Busy(s)|
    ensures forall a | a in run :: !a.CallRead? && !a.CallWrite? && !a.Spurious?
    ensures Busy(Exec(s, run)) == {}
  {
    run := DrainWithin(s);
  }

  lemma {:induction false} DrainWithin(s: State) returns (run: seq<Action>)
    requires Inv(s)
    ensures CanRun(s, run) && |run| <= Remaining(s)
    ensures forall a | a in run :: !a.CallRead? && !a.CallWrite? && !a.Spurious?
    ensures Busy(Exec(s, run)) == {}
    decreases Remaining(s) + |Holders(s)|, Remaining(s)
  {
    assert Holders(s) <= Busy(s);
    HoldersBound(s);
    if Busy(s) == {} {
      run := [];
    } else {
      var a := ProgressStep(s);
      StepKeepsInv(s, a);
      SubsetCard(Busy(Apply(s, a)), Busy(s));
      var rest := DrainWithin(Apply(s, a));
      run := [a] + rest;
      assert run[1..] == rest;
    }
  }

  lemma SubsetCard(a: set<Tid>, b: set<Tid>)
    requires a <= b
    ensures |a| <= |b|
  {
    assert b == a + (b - a);
  }

  lemma HoldersBound(s: State)
    ensures |Holders(s)| <= |Busy(s)|
  {
    SubsetCard(Holders(s), Busy(s));
  }

  // ---- Writer priority ----

  predicate WriterWaitsThroughout(s: State, run: seq<Action>)
    requires CanRun(s, run)
    decreases |run|
  {
    s.waiting > 0 && (run == [] || WriterWaitsThroughout(Apply(s, run[0]), run[1..]))
  }

  /** As long as some writer is waiting, no thread becomes a reader. */
  lemma {:induction false} WriterPriority(s: State, run: seq<Action>)
    requires CanRun(s, run) && WriterWaitsThroughout(s, run)
    ensures At(Exec(s, run).pc, Reading) <= At(s.pc, Reading)
    decreases |run|
  {
    if run != [] {
      WriterPriority(Apply(s, run[0]), run[1..]);
      assert At(Apply(s, run[0]).pc, Reading) <= At(s.pc, Reading);
    }
  }

  // ---- The lock object ----

  /** The lock with its three counters. `pc` records which threads sleep on which
      condition variable and which hold the lock. Each method is one section executed
      while the mutex is held. */
  class Lock {
    var numReaders: int
    var numWriters: int
    var numWritersWaiting: int
    ghost var pc: map<Tid, Pc>

    ghost function Abs(): State
      reads this
    {
      State(numReaders, numWriters, numWritersWaiting, pc)
    }

    constructor (ghost threads: set<Tid>)
      ensures Abs() == Init(threads) && Inv(Abs())
    {
      numReaders, numWriters, numWritersWaiting := 0, 0, 0;
      pc := map t | t in threads :: Idle;
      InitInv(threads);
    }

    /** One pass of the loop in lock_read: acquire, or go to sleep on m_no_writers. */
    method LockRead(ghost t: Tid) returns (acquired: bool)
      requires Inv(Abs()) && Enabled(Abs(), TestRead(t))
      modifies this
      ensures Abs() == Apply(old(Abs()), TestRead(t)) && Inv(Abs())
      ensures acquired <==> pc[t] == Reading
      ensures acquired <==> old(numWriters) == 0 && old(numWritersWaiting) == 0
      ensures pc == old(pc)[t := if acquired then Reading else ReadAsleep]
    {
      StepKeepsInv(Abs(), TestRead(t));
      if numWriters > 0 || numWritersWaiting > 0 {
        pc := pc[t := ReadAsleep];
        acquired := false;
      } else {
        numReaders := numReaders + 1;
        pc := pc[t := Reading];
        acquired := true;
      }
    }

    /** lock_write: the first pass (`entering`) also counts the writer as waiting. */
    method LockWrite(ghost t: Tid, entering: bool) returns (acquired: bool)
      requires Inv(Abs()) && Enabled(Abs(), if entering then EnterWrite(t) else TestWrite(t))
      modifies this
      ensures Abs() == Apply(old(Abs()), if entering then EnterWrite(t) else TestWrite(t)) && Inv(Abs())
      ensures acquired <==> pc[t] == Writing
      ensures acquired <==> old(numWriters) == 0 && old(numReaders) == 0
      ensures pc == old(pc)[t := if acquired then Writing else WriteAsleep]
    {
      StepKeepsInv(Abs(), if entering then EnterWrite(t) else TestWrite(t));
      if entering {
        numWritersWaiting := numWritersWaiting + 1;
      }
      if numWriters > 0 || numReaders > 0 {
        pc := pc[t := WriteAsleep];
        acquired := false;
      } else {
        numWritersWaiting := numWritersWaiting - 1;
        numWriters := numWriters + 1;
        pc := pc[t := Writing];
        acquired := true;
      }
    }

    method ReleaseRead(ghost t: Tid) returns (notified: bool)
      requires Inv(Abs()) && Enabled(Abs(), UnlockRead(t))
      modifies this
      ensures Abs() == Apply(old(Abs()), UnlockRead(t)) && Inv(Abs())
      ensures numReaders == old(numReaders) - 1 >= 0
      ensures notified ==> N(pc, WriteAsleep) == 0
      ensures notified <==> N(pc, Reading) == 0
      ensures forall u :: u in pc ==>
                u in old(pc) &&
                pc[u] == if u == t then Idle
                         else if notified && old(pc[u]) == WriteAsleep then WritePending
                         else old(pc[u])
    {
      StepKeepsInv(Abs(), UnlockRead(t));
      assert t in At(pc, Reading);
      numReaders := numReaders - 1;
      pc := pc[t := Idle];
      notified := numReaders == 0 && numWriters == 0;
      if notified {
        pc := WakeWriters(pc);
      }
    }

    method ReleaseWrite(ghost t: Tid) returns (notified: bool)
      requires Inv(Abs()) && Enabled(Abs(), UnlockWrite(t))
      modifies this
      ensures Abs() == Apply(old(Abs()), UnlockWrite(t)) && Inv(Abs())
      ensures notified && numWriters == 0
      ensures N(pc, WriteAsleep) == 0 && N(pc, ReadAsleep) == 0
      ensures forall u :: u in pc ==>
                u in old(pc) &&
                pc[u] == if u == t then Idle
                         else if old(pc[u]) == WriteAsleep then WritePending
                         else if old(pc[u]) == ReadAsleep then ReadPending
                         else old(pc[u])
    {
      StepKeepsInv(Abs(), UnlockWrite(t));
      assert t in At(pc, Writing);
      numWriters := numWriters - 1;
      pc := pc[t := Idle];
      notified := numWriters == 0;
      if notified {
        pc := WakeWriters(WakeReaders(pc));
      }
    }
  }
}
