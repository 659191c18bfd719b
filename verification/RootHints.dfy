/** Keeping the root hints alive: checking a root reply, finding addresses to ask, and the
    updater whose passes must never let the root referral expire. */
module RootHints {
  import opened Dns
  import opened CacheAnswer
  import opened FifoCache
  import opened RecursiveCache

  const ONE_HOUR: nat := 60 * 60
  const ONE_DAY: nat := 60 * 60 * 24
  const TWO_DAYS: nat := 60 * 60 * 48

  // ---- Checking a root reply ----

  ghost predicate HasGlue(ns: ResourceRecord, additional: seq<ResourceRecord>, t: RRType) {
    exists g :: g in additional && g.rtype == t && g.name == ns.nsdname
  }

  ghost predicate AcceptableReply(answers: seq<ResourceRecord>, additional: seq<ResourceRecord>) {
    && |answers| >= 5
    && (forall r :: r in answers ==> r.rtype == NS && IsRoot(r.name))
    && (forall r :: r in answers ==> HasGlue(r, additional, A) && HasGlue(r, additional, AAAA))
  }

  method ValidateRootResponse(answers: seq<ResourceRecord>, additional: seq<ResourceRecord>) returns (ok: bool)
    ensures ok <==> AcceptableReply(answers, additional)
    ensures ok ==> |answers| >= 5
  {
    var i := 0;
    while i < |answers|
      invariant 0 <= i <= |answers|
      invariant forall k :: 0 <= k < i ==> answers[k].rtype == NS && IsRoot(answers[k].name)
    {
      if answers[i].rtype != NS {
        return false;
      }
      if !IsRoot(answers[i].name) {
        return false;
      }
      i := i + 1;
    }
    if |answers| < 5 {
      return false;
    }
    i := 0;
    while i < |answers|
      invariant 0 <= i <= |answers|
      invariant forall k :: 0 <= k < i ==> HasGlue(answers[k], additional, A) && HasGlue(answers[k], additional, AAAA)
    {
      var foundA, foundAaaa := false, false;
      var j := 0;
      while j < |additional|
        invariant 0 <= j <= |additional|
        invariant foundA <==> HasGlue(answers[i], additional[..j], A)
        invariant foundAaaa <==> HasGlue(answers[i], additional[..j], AAAA)
      {
        var g := additional[j];
        assert additional[..j+1] == additional[..j] + [g];
        if g.rtype == A {
          if g.name == answers[i].nsdname {
            foundA := true;
          }
        } else if g.rtype == AAAA {
          if g.name == answers[i].nsdname {
            foundAaaa := true;
          }
        }
        j := j + 1;
      }
      assert additional[..j] == additional;
      if !foundA || !foundAaaa {
        return false;
      }
      i := i + 1;
    }
    ok := true;
  }

  // ---- Addresses of the root servers ----

  datatype Ip = Ip4(address: nat) | Ip6(address: nat)

  predicate Names(ns: ResourceRecord, g: ResourceRecord) {
    ns.nsdname == g.name
  }

  ghost predicate IsGlueIp(ip: Ip, ns: seq<ResourceRecord>, additional: seq<ResourceRecord>, use4: bool, use6: bool) {
    exists n, g :: n in ns && g in additional && Names(n, g) &&
      ((use4 && g.rtype == A && ip == Ip4(g.address)) || (use6 && g.rtype == AAAA && ip == Ip6(g.address)))
  }

  method GlueOf(ns: ResourceRecord, additional: seq<ResourceRecord>, use4: bool, use6: bool) returns (ips: set<Ip>)
    ensures forall ip :: ip in ips <==> IsGlueIp(ip, [ns], additional, use4, use6)
  {
    ips := {};
    var j := 0;
    while j < |additional|
      invariant 0 <= j <= |additional|
      invariant forall ip :: ip in ips <==> IsGlueIp(ip, [ns], additional[..j], use4, use6)
    {
      var g := additional[j];
      assert additional[..j+1] == additional[..j] + [g];
      GlueStep(ns, additional[..j], g, use4, use6);
      if use4 && ns.nsdname == g.name && g.rtype == A {
        ips := ips + {Ip4(g.address)};
      }
      if use6 && ns.nsdname == g.name && g.rtype == AAAA {
        ips := ips + {Ip6(g.address)};
      }
      j := j + 1;
    }
    assert additional[..j] == additional;
  }

  lemma GlueStep(ns: ResourceRecord, before: seq<ResourceRecord>, g: ResourceRecord, use4: bool, use6: bool)
    ensures forall ip :: IsGlueIp(ip, [ns], before + [g], use4, use6) <==>
              IsGlueIp(ip, [ns], before, use4, use6) ||
              (Names(ns, g) && ((use4 && g.rtype == A && ip == Ip4(g.address)) || (use6 && g.rtype == AAAA && ip == Ip6(g.address))))
  {
    forall ip
      ensures IsGlueIp(ip, [ns], before + [g], use4, use6) <==>
                IsGlueIp(ip, [ns], before, use4, use6) ||
                (Names(ns, g) && ((use4 && g.rtype == A && ip == Ip4(g.address)) || (use6 && g.rtype == AAAA && ip == Ip6(g.address))))
    {
      assert ns in [ns] && g in before + [g];
      assert forall x :: x in before + [g] <==> x in before || x == g;
    }
  }

  /** get_glue_ips: the addresses, of the enabled families, of the servers the answer names. */
  method GetGlueIps(ns: seq<ResourceRecord>, additional: seq<ResourceRecord>, use4: bool, use6: bool) returns (ips: set<Ip>)
    ensures forall ip :: ip in ips <==> IsGlueIp(ip, ns, additional, use4, use6)
  {
    ips := {};
    var i := 0;
    while i < |ns|
      invariant 0 <= i <= |ns|
      invariant forall ip :: ip in ips <==> IsGlueIp(ip, ns[..i], additional, use4, use6)
    {
      var more := GlueOf(ns[i], additional, use4, use6);
      assert ns[..i+1] == ns[..i] + [ns[i]];
      assert forall x :: x in ns[..i+1] <==> x in ns[..i] || x in [ns[i]];
      ips := ips + more;
      i := i + 1;
    }
    assert ns[..i] == ns;
  }

  /** A referral built from an accepted root reply keeps only NS records with a TTL, yet as
      long as it is accepted its addresses are found, if and only if some family is enabled. */
  lemma AcceptedReplyHasGlue(answers: seq<ResourceRecord>, additional: seq<ResourceRecord>, ns: seq<ResourceRecord>,
                             use4: bool, use6: bool)
    requires AcceptableReply(answers, additional)
    requires ns != [] && forall r :: r in ns ==> r in answers
    ensures (exists ip :: IsGlueIp(ip, ns, additional, use4, use6)) <==> use4 || use6
  {
    var n := ns[0];
    assert n in ns && n in answers;
    assert HasGlue(n, additional, A) && HasGlue(n, additional, AAAA);
    var a :| a in additional && a.rtype == A && a.name == n.nsdname;
    var aaaa :| aaaa in additional && aaaa.rtype == AAAA && aaaa.name == n.nsdname;
    assert Names(n, a) && Names(n, aaaa);
    if use4 {
      assert IsGlueIp(Ip4(a.address), ns, additional, use4, use6);
    } else if use6 {
      assert IsGlueIp(Ip6(aaaa.address), ns, additional, use4, use6);
    }
  }

  /** The constructor refuses an accepted root reply only when all its TTLs are zero. */
  lemma AcceptedReplyIsOneName(answers: seq<ResourceRecord>, additional: seq<ResourceRecord>)
    requires AcceptableReply(answers, additional)
    ensures OneName(answers)
    ensures !(SomeUsable(answers) && OneName(answers)) <==> forall r :: r in answers ==> r.ttl == 0
  {
    forall i, j | 0 <= i < |answers| && 0 <= j < |answers|
      ensures NameText(answers[i].name) == NameText(answers[j].name)
    {
      assert answers[i] in answers && answers[j] in answers;
    }
    if !SomeUsable(answers) {
      forall r | r in answers
        ensures r.ttl == 0
      {
        var i :| 0 <= i < |answers| && answers[i] == r;
        assert !CacheAnswer.Usable(answers[i]);
      }
    } else {
      var i :| 0 <= i < |answers| && CacheAnswer.Usable(answers[i]);
      assert answers[i] in answers;
    }
  }

  // ---- The updater on clocks ----

  /** What came back from the root servers, as far as the root entry's clock can tell:
      Refused is an acceptable reply the referral constructor throws on. */
  datatype Reply = NoReply | Invalid | Accepted | Refused

  /** Clock readings of one pass: the first lookup, update_ttls, handling the reply, and
      the second lookup. */
  datatype Readings = Readings(first: int, update: int, reply: int, second: int)

  datatype Outcome = Running(c: Clock) | NoRoot | Threw

  function Seconds(c: Clock): int {
    c.min / TICKS
  }

  /** update_root_hints_now, for the clock of the root entry. */
  function UpdateNow(c: Clock, reply: Reply, now: int): Outcome {
    match reply
    case NoReply => if ExpiredAt(c, now) then NoRoot else Running(Clock(c.create, TWO_DAYS * TICKS))
    case Invalid => Running(c)
    case Accepted => Running(Clock(now, TWO_DAYS * TICKS))
    case Refused => Threw
  }

  /** The backstop: a minimum below an hour is reset to two days. */
  function Backstop(c: Clock): Clock {
    if Seconds(c) < ONE_HOUR then Clock(c.create, TWO_DAYS * TICKS) else c
  }

  /** The part of a pass that asks the root servers. */
  function Refreshed(c: Clock, reply: Reply, at: Readings): Outcome {
    match UpdateNow(c, reply, at.reply)
    case NoRoot => NoRoot
    case Threw => Threw
    case Running(c2) => if ExpiredAt(c2, at.second) then NoRoot else Running(Backstop(c2))
  }

  /** Whether a pass asks the root servers: the first one does, and any that finds less than
      a day left. */
  predicate Asks(firstPass: bool, c: Clock, at: Readings) {
    firstPass || Seconds(Tick(c, at.update)) < ONE_DAY
  }

  /** One pass of update_root_hints. */
  function Pass(firstPass: bool, c: Clock, at: Readings, reply: Reply): Outcome {
    if ExpiredAt(c, at.first) then NoRoot
    else
      var c1 := Tick(c, at.update);
      if !Asks(firstPass, c, at) then Running(c1)
      else Refreshed(c1, reply, at)
  }

  /** A pass after one that ended at `end`: it sleeps two seconds first and takes, sleep
      and query included, under half an hour. */
  predicate Timely(end: int, at: Readings) {
    && end + 2 * TICKS <= at.first <= at.update <= at.reply <= at.second
    && at.second - end < ONE_HOUR / 2 * TICKS
  }

  predicate AllTimely(end: int, passes: seq<(Readings, Reply)>)
    decreases |passes|
  {
    passes == [] || (Timely(end, passes[0].0) && AllTimely(passes[0].0.second, passes[1..]))
  }

  function EndOf(end: int, passes: seq<(Readings, Reply)>): int
    decreases |passes|
  {
    if passes == [] then end else EndOf(passes[0].0.second, passes[1..])
  }

  function RunPasses(firstPass: bool, c: Clock, passes: seq<(Readings, Reply)>): Outcome
    decreases |passes|
  {
    if passes == [] then Running(c)
    else
      match Pass(firstPass, c, passes[0].0, passes[0].1)
      case NoRoot => NoRoot
      case Threw => Threw
      case Running(c') => RunPasses(false, c', passes[1..])
  }

  /** Between passes the root entry has at least another half hour. */
  predicate Safe(c: Clock, end: int) {
    c.create <= end && c.min >= 0 && Deadline(c) >= end + ONE_HOUR / 2 * TICKS
  }

  lemma PassKeepsSafe(firstPass: bool, c: Clock, end: int, at: Readings, reply: Reply)
    requires Safe(c, end) && Timely(end, at)
    ensures var r := Pass(firstPass, c, at, reply);
            && r != NoRoot
            && (r.Threw? <==> Asks(firstPass, c, at) && reply.Refused?)
            && (r.Running? ==> Safe(r.c, at.second))
  {
    var c1 := Tick(c, at.update);
    assert Deadline(c1) == Deadline(c) && c1.create > at.update - TICKS;
  }

  /** A timely pass in numbers. It asks in a first pass and whenever less than a day is
      left, and then silence gives the entry two days from the update on, an accepted reply
      two days from the reply on. An invalid reply leaves the deadline alone unless less than
      an hour was left. */
  lemma PassInNumbers(firstPass: bool, c: Clock, end: int, at: Readings, reply: Reply)
    requires c.create <= end && c.min >= 0 && c.create + c.min >= end + 1_800_000_000_000
    requires end + 2_000_000_000 <= at.first <= at.update <= at.reply <= at.second < end + 1_800_000_000_000
    ensures Safe(c, end) && Timely(end, at)
    ensures var left := c.create + c.min - at.update;
            var asks := firstPass || left < 86_400_000_000_000;
            && (Asks(firstPass, c, at) <==> asks)
            && Pass(firstPass, c, at, reply) ==
                 if !asks then Running(Clock(at.update, left))
                 else if reply.NoReply? then Running(Clock(at.update, 172_800_000_000_000))
                 else if reply.Accepted? then Running(Clock(at.reply, 172_800_000_000_000))
                 else if reply.Invalid? then Running(Clock(at.update, if left < 3_600_000_000_000 then 172_800_000_000_000 else left))
                 else Threw
  {
    assert Tick(c, at.update) == Clock(at.update, c.create + c.min - at.update);
  }

  /** Pass i is reached, asks, and gets a reply the referral constructor refuses. */
  ghost predicate Dies(firstPass: bool, c: Clock, passes: seq<(Readings, Reply)>, i: nat)
    requires i < |passes|
  {
    var r := RunPasses(firstPass, c, passes[..i]);
    r.Running? && Asks(firstPass && i == 0, r.c, passes[i].0) && passes[i].1.Refused?
  }

  lemma DiesLater(firstPass: bool, c: Clock, passes: seq<(Readings, Reply)>, i: nat)
    requires 0 < i < |passes| && Pass(firstPass, c, passes[0].0, passes[0].1).Running?
    ensures Dies(firstPass, c, passes, i) <==>
            Dies(false, Pass(firstPass, c, passes[0].0, passes[0].1).c, passes[1..], i - 1)
  {
    assert passes[..i][0] == passes[0] && passes[..i][1..] == passes[1..][..i-1];
  }

  /** While the updater is the only writer of the root entry and its passes are timely, no
      mix of replies makes a lookup of the root fail in any pass. The updater stops exactly
      when a pass that asks gets an acceptable reply all of whose TTLs are zero; otherwise
      the root entry stays unexpired for at least half an hour after the last pass. */
  lemma {:induction false} RootNeverExpires(firstPass: bool, c: Clock, end: int, passes: seq<(Readings, Reply)>)
    requires Safe(c, end) && AllTimely(end, passes)
    ensures var r := RunPasses(firstPass, c, passes);
            && r != NoRoot
            && (r.Threw? <==> exists i :: 0 <= i < |passes| && Dies(firstPass, c, passes, i))
            && (r.Running? ==>
                  Safe(r.c, EndOf(end, passes)) &&
                  forall t :: t <= EndOf(end, passes) + ONE_HOUR / 2 * TICKS ==> !ExpiredAt(r.c, t))
    decreases |passes|
  {
    if passes != [] {
      var r := Pass(firstPass, c, passes[0].0, passes[0].1);
      PassKeepsSafe(firstPass, c, end, passes[0].0, passes[0].1);
      assert passes[..0] == [];
      if r.Threw? {
        assert Dies(firstPass, c, passes, 0);
      } else {
        RootNeverExpires(false, r.c, passes[0].0.second, passes[1..]);
        SameDeaths(firstPass, c, passes);
      }
    }
  }

  /** In a first pass such a reply ends the updater at once. */
  lemma RefusedReplyEndsUpdater(c: Clock, end: int, at: Readings)
    requires Safe(c, end) && Timely(end, at)
    ensures RunPasses(true, c, [(at, Refused)]) == Threw
  {
    var passes := [(at, Refused)];
    assert passes[..0] == [];
    assert AllTimely(end, passes) by {
      assert passes[1..] == [];
    }
    assert Dies(true, c, passes, 0);
    RootNeverExpires(true, c, end, passes);
  }

  lemma SameDeaths(firstPass: bool, c: Clock, passes: seq<(Readings, Reply)>)
    requires passes != [] && Pass(firstPass, c, passes[0].0, passes[0].1).Running?
    ensures var c' := Pass(firstPass, c, passes[0].0, passes[0].1).c;
            (exists i :: 0 <= i < |passes| && Dies(firstPass, c, passes, i)) <==>
            exists i :: 0 <= i < |passes[1..]| && Dies(false, c', passes[1..], i)
  {
    var c' := Pass(firstPass, c, passes[0].0, passes[0].1).c;
    assert passes[..0] == [];
    assert !Dies(firstPass, c, passes, 0);
    if exists i :: 0 <= i < |passes| && Dies(firstPass, c, passes, i) {
      var i :| 0 <= i < |passes| && Dies(firstPass, c, passes, i);
      DiesLater(firstPass, c, passes, i);
      assert Dies(false, c', passes[1..], i - 1);
    }
    if exists i :: 0 <= i < |passes[1..]| && Dies(false, c', passes[1..], i) {
      var i :| 0 <= i < |passes[1..]| && Dies(false, c', passes[1..], i);
      DiesLater(firstPass, c, passes, i + 1);
      assert Dies(firstPass, c, passes, i + 1);
    }
  }

  /** Freshly loaded hints are safe to start from. */
  lemma LoadedHintsAreSafe(now: int)
    ensures Safe(Clock(now, TWO_DAYS * TICKS), now)
  {
  }

  /** The clocks the root entry has in the course of a pass, one after the other. */
  function ClocksDuring(firstPass: bool, c: Clock, at: Readings, reply: Reply): seq<Clock> {
    var c1 := Tick(c, at.update);
    if !Asks(firstPass, c, at) then [c, c1]
    else
      match UpdateNow(c1, reply, at.reply)
      case Running(c2) => [c, c1, c2, Backstop(c2)]
      case _ => [c, c1]
  }

  /** Other threads may look up referrals in the middle of a pass: none of the clocks the
      root entry has in its course expires before the pass ends. */
  lemma RootUnexpiredDuringPass(firstPass: bool, c: Clock, end: int, at: Readings, reply: Reply)
    requires Safe(c, end) && Timely(end, at)
    ensures forall i, t :: 0 <= i < |ClocksDuring(firstPass, c, at, reply)| && t <= at.second ==>
              !ExpiredAt(ClocksDuring(firstPass, c, at, reply)[i], t)
  {
    var c1 := Tick(c, at.update);
    assert Deadline(c1) == Deadline(c) && c1.create > at.update - TICKS;
  }

  predicate NoRootAdded(run: seq<ReferralAction>) {
    forall i :: 0 <= i < |run| && run[i].AddRef? ==> !IsRoot(run[i].name)
  }

  lemma {:induction false} RootKept(e: Entry, run: seq<ReferralAction>)
    requires NoRootAdded(run)
    ensures LastRoot(e, run) == e
    decreases |run|
  {
    if run != [] {
      assert run[0].AddRef? ==> !IsRoot(run[0].name);
      RootKept(e, run[1..]);
    }
  }

  /** So no lookup by another thread throws, whatever it asks for: at any point of a pass,
      behind any referrals other threads add and any sweeps, and up to half an hour after
      the pass, the search finds a referral. */
  lemma LookupsNeverThrow(s: Trio<Name>, run: seq<ReferralAction>, name: Name, times: seq<int>,
                          firstPass: bool, c: Clock, end: int, at: Readings, reply: Reply, i: nat)
    requires Safe(c, end) && Timely(end, at) && i < |ClocksDuring(firstPass, c, at, reply)|
    requires NoRootListed(s) && ROOT in s.entries && s.entries[ROOT].clock == ClocksDuring(firstPass, c, at, reply)[i]
    requires CanRun(s, run) && NoRootAdded(run) && |times| == |name| + 1
    requires times[|name|] <= at.second ||
             (Pass(firstPass, c, at, reply) == Running(s.entries[ROOT].clock) &&
              times[|name|] <= at.second + ONE_HOUR / 2 * TICKS)
    ensures FindReferral(Exec(s, run), name, times).Some?
  {
    RootUnexpiredDuringPass(firstPass, c, end, at, reply);
    PassKeepsSafe(firstPass, c, end, at, reply);
    RootKept(s.entries[ROOT], run);
    ReferralLookupNeverFails(s, run, name, times);
  }

  /** The timing matters: after an invalid reply that leaves exactly an hour, a pass that
      comes more than an hour later finds no root. */
  lemma LatePassFindsNoRoot(late: int)
    requires late > ONE_HOUR * TICKS
    ensures var c := Clock(0, ONE_HOUR * TICKS);
            && Pass(false, c, Readings(0, 0, 0, 0), Invalid) == Running(c)
            && Pass(false, c, Readings(late, late, late, late), Invalid) == NoRoot
  {
  }

  // ---- The updater on the cache object ----

  /** The reply to a root query as records. */
  datatype RootReply = Silence | Message(answers: seq<ResourceRecord>, additional: seq<ResourceRecord>)

  ghost function Judged(answers: seq<ResourceRecord>, additional: seq<ResourceRecord>): Reply
    reads RecordSet(answers)
  {
    if !AcceptableReply(answers, additional) then Invalid
    else if SomeUsable(answers) && OneName(answers) then Accepted
    else Refused
  }

  ghost function Classify(m: RootReply): Reply
    reads if m.Message? then RecordSet(m.answers) else {}
  {
    if m.Silence? then NoReply else Judged(m.answers, m.additional)
  }

  twostate lemma ClassifyKept(m: RootReply)
    requires forall x :: x in ReplyRecords(m) ==> x.ttl == old(x.ttl)
    ensures Classify(m) == old(Classify(m))
  {
    if m.Message? {
      assert forall x :: x in m.answers ==> x in ReplyRecords(m);
      assert forall i :: 0 <= i < |m.answers| ==> m.answers[i] in m.answers && (Usable(m.answers[i]) <==> old(Usable(m.answers[i])));
      assert SomeUsable(m.answers) == old(SomeUsable(m.answers));
      assert OneName(m.answers) == old(OneName(m.answers));
    }
  }

  /** A reply that is acceptable and that the referral constructor refuses: five root NS
      records with glue and no TTL. In a first pass it ends the updater. */
  method RefusedReply() returns (m: RootReply)
    ensures m.Message? && fresh(RecordSet(m.answers)) && AcceptableReply(m.answers, m.additional)
    ensures Classify(m) == Refused
  {
    var name := ["ns"];
    var a := new ResourceRecord(name, A, ROOT, 1, 0, "a", 0);
    var aaaa := new ResourceRecord(name, AAAA, ROOT, 1, 0, "aaaa", 0);
    var answers: seq<ResourceRecord>, additional := [], [a, aaaa];
    while |answers| < 5
      invariant |answers| <= 5
      invariant forall r :: r in answers ==> fresh(r) && r.rtype == NS && r.name == ROOT && r.nsdname == name && r.ttl == 0
      decreases 5 - |answers|
    {
      var ns := new ResourceRecord(ROOT, NS, name, 0, 0, "ns", 0);
      answers := answers + [ns];
    }
    m := Message(answers, additional);
    forall r | r in answers
      ensures HasGlue(r, additional, A) && HasGlue(r, additional, AAAA)
    {
      assert a in additional && aaaa in additional;
    }
    AcceptedReplyIsOneName(answers, additional);
  }

  function ReplyRecords(m: RootReply): seq<ResourceRecord> {
    if m.Message? then m.answers + m.additional else []
  }

  predicate RootAt(cache: Cache, root: Answer)
    reads cache`referrals
  {
    ROOT in cache.referrals && cache.referrals[ROOT] == root
  }

  /** The cache is in order and its root entry is `root`, whose clock is c and whose
      records are among `own`. */
  ghost predicate Holds(cache: Cache, root: Answer, c: Clock, own: set<ResourceRecord>)
    reads cache, cache.Cached()`createTime, cache.Cached()`minTtl, cache.Cached()`numRecords
    reads root, RecordSet(root.Records())
  {
    && cache.Valid() && RootAt(cache, root) && root.Valid()
    && root.Time() == c && RecordSet(root.Records()) <= own
  }

  /** The entry and all its records are set to two days. */
  ghost predicate TwoDaysLeft(root: Answer)
    reads root, RecordSet(root.Records())
  {
    root.minTtl == 172_800_000_000_000 && forall x :: x in root.Records() ==> x.ttl == 172_800
  }

  /** The referral built from an acceptable reply, its TTLs set to two days whatever the
      root servers said. None stands for the exception the constructor throws. */
  method MakeRoot(answers: seq<ResourceRecord>, additional: seq<ResourceRecord>, now: int, sequence: nat,
                  ghost usable: bool, ghost own: set<ResourceRecord>)
    returns (made: Option<Answer>)
    requires forall x :: x in answers + additional ==> x.ttl < TWO_TO_32 && x in own
    requires AcceptableReply(answers, additional) && usable == (SomeUsable(answers) && OneName(answers))
    modifies own`ttl
    ensures made.Some? <==> usable
    ensures made.Some? ==>
              && fresh(made.value) && made.value.Valid() && made.value.sequence == sequence
              && made.value.Time() == Clock(now, TWO_DAYS * TICKS) && IsRoot(made.value.referralName)
              && RecordSet(made.value.Records()) <= own && TwoDaysLeft(made.value)
  {
    made := Answer.Create(sequence, Referral, TWO_DAYS, [], answers, additional, now);
    if made.Some? {
      var a := made.value;
      assert a.nsRecords[0] in a.nsRecords;
      a.SetTtls(TWO_DAYS);
    }
  }

  /** Making a referral leaves a cache in order. */
  method MakeRootFor(ghost cache: Cache, answers: seq<ResourceRecord>, additional: seq<ResourceRecord>, now: int, sequence: nat,
                     ghost usable: bool, ghost own: set<ResourceRecord>)
    returns (made: Option<Answer>)
    requires cache.Valid()
    requires forall x :: x in answers + additional ==> x.ttl < TWO_TO_32 && x in own
    requires AcceptableReply(answers, additional) && usable == (SomeUsable(answers) && OneName(answers))
    modifies own`ttl
    ensures made.Some? <==> usable
    ensures made.Some? ==>
              && fresh(made.value) && made.value.Valid() && made.value.sequence == sequence
              && made.value.Time() == Clock(now, TWO_DAYS * TICKS) && IsRoot(made.value.referralName)
              && RecordSet(made.value.Records()) <= own && TwoDaysLeft(made.value)
    ensures cache.Valid()
  {
    made := MakeRoot(answers, additional, now, sequence, usable, own);
  }

  /** add_referral on a root referral. */
  method InstallRoot(cache: Cache, root: Answer, ghost c: Clock, ghost own: set<ResourceRecord>)
    requires cache.Valid() && root.Valid() && root.Time() == c && RecordSet(root.Records()) <= own
    requires IsRoot(root.referralName) && forall b :: b in cache.Cached() ==> b.sequence != root.sequence
    modifies cache`referrals, cache`referralList, cache`numReferralRrs
    ensures Holds(cache, root, c, own)
  {
    cache.AddReferral(root);
  }

  /** An acceptable reply becomes the new root entry. */
  method StoreReply(cache: Cache, root: Answer, answers: seq<ResourceRecord>, additional: seq<ResourceRecord>,
                    now: int, sequence: nat, ghost kind: Reply, ghost own: set<ResourceRecord>)
    returns (r: Outcome, root': Answer)
    requires cache.Valid()
    requires forall b :: b in cache.Cached() ==> b.sequence != sequence
    requires forall x :: x in answers + additional ==> x.ttl < TWO_TO_32 && x in own
    requires kind == Judged(answers, additional) && !kind.Invalid?
    modifies cache`referrals, cache`referralList, cache`numReferralRrs, own`ttl
    ensures r == if kind.Accepted? then Running(Clock(now, TWO_DAYS * TICKS)) else Threw
    ensures r.Running? ==> fresh(root') && Holds(cache, root', r.c, own)
    ensures kind.Accepted? ==> root'.createTime == now && TwoDaysLeft(root')
    ensures !kind.Accepted? ==> root' == root
  {
    var made := MakeRootFor(cache, answers, additional, now, sequence, kind.Accepted?, own);
    if made.None? {
      return Threw, root;
    }
    InstallRoot(cache, made.value, Clock(now, TWO_DAYS * TICKS), own);
    root' := made.value;
    r := Running(root'.Time());
  }

  // ---- Loading the hints ----

  /** A row of the table of root servers. */
  datatype HintRow = HintRow(name: Name, address: nat, isV4: bool)

  /** A record as the loader makes it. */
  predicate HintRecord(r: ResourceRecord)
    reads r`ttl
  {
    r.ttl == TWO_DAYS && r.rtype != SOA
  }

  /** The NS record of one server. */
  predicate IsHintNs(r: ResourceRecord, name: Name) {
    r.rtype == NS && r.name == ROOT && r.nsdname == name
  }

  /** The address record of one row. */
  predicate IsHintGlue(r: ResourceRecord, row: HintRow) {
    r.rtype == (if row.isV4 then A else AAAA) && r.name == row.name && r.address == row.address
  }

  method HintNs(name: Name) returns (r: ResourceRecord)
    ensures fresh(r) && HintRecord(r) && IsHintNs(r, name)
  {
    r := new ResourceRecord(ROOT, NS, name, 0, 0, "", TWO_DAYS);
  }

  method HintGlue(row: HintRow) returns (r: ResourceRecord)
    ensures fresh(r) && HintRecord(r) && IsHintGlue(r, row)
  {
    r := new ResourceRecord(row.name, if row.isV4 then A else AAAA, ROOT, row.address, 0, "", TWO_DAYS);
  }

  ghost predicate AllHints(rrs: set<ResourceRecord>)
    reads rrs
  {
    forall r :: r in rrs ==> HintRecord(r)
  }

  /** An NS record for every name met, an address record for every row. */
  ghost predicate Hints(rows: seq<HintRow>, ns: map<Name, ResourceRecord>, glue: seq<ResourceRecord>) {
    && |glue| == |rows| && (forall i :: 0 <= i < |rows| ==> IsHintGlue(glue[i], rows[i]))
    && (forall n :: n in ns ==> IsHintNs(ns[n], n))
    && (forall i :: 0 <= i < |rows| ==> rows[i].name in ns)
    && (rows == [] ==> ns == map[])
  }

  lemma OneMoreHint(rows: seq<HintRow>, ns: map<Name, ResourceRecord>, glue: seq<ResourceRecord>,
                    row: HintRow, n: ResourceRecord, g: ResourceRecord)
    requires Hints(rows, ns, glue) && IsHintNs(n, row.name) && IsHintGlue(g, row)
    ensures Hints(rows + [row], ns[row.name := n], glue + [g])
    ensures ns[row.name := n].Values <= ns.Values + {n}
    ensures RecordSet(glue + [g]) == RecordSet(glue) + {g}
  {
  }

  /** The loop over the rows; `made` are the records it has made. */
  method HintRecords(rows: seq<HintRow>)
    returns (ns: map<Name, ResourceRecord>, glue: seq<ResourceRecord>, ghost made: set<ResourceRecord>)
    ensures Hints(rows, ns, glue) && ns.Values <= made && RecordSet(glue) <= made
    ensures fresh(made) && AllHints(made)
  {
    ns, glue, made := map[], [], {};
    var i := 0;
    while i < |rows|
      invariant 0 <= i <= |rows| && Hints(rows[..i], ns, glue)
      invariant ns.Values <= made && RecordSet(glue) <= made && fresh(made) && AllHints(made)
    {
      var n := HintNs(rows[i].name);
      var g := HintGlue(rows[i]);
      OneMoreHint(rows[..i], ns, glue, rows[i], n, g);
      assert rows[..i+1] == rows[..i] + [rows[i]];
      ns := ns[rows[i].name := n];
      glue := glue + [g];
      made := made + {n, g};
      i := i + 1;
    }
    assert rows[..i] == rows;
  }

  /** The records of a map, as a list. */
  method ListOfValues(m: map<Name, ResourceRecord>) returns (rrs: seq<ResourceRecord>)
    ensures RecordSet(rrs) == m.Values
  {
    rrs := [];
    var rest := m.Keys;
    while rest != {}
      invariant rest <= m.Keys && RecordSet(rrs) <= m.Values
      invariant forall n :: n in m && n !in rest ==> m[n] in rrs
      decreases rest
    {
      var n :| n in rest;
      rest := rest - {n};
      rrs := rrs + [m[n]];
    }
  }

  lemma HintMinimum(vs: seq<RRView>)
    requires forall i :: 0 <= i < |vs| ==> vs[i].rtype != SOA && vs[i].ttl == TWO_DAYS
    ensures InitialMin(TWO_DAYS, [], vs) == TWO_DAYS * TICKS
  {
    InitialMinIsLeast(TWO_DAYS, [], vs);
    assert [] + vs == vs;
  }

  predicate HasNs(rrs: seq<ResourceRecord>, name: Name) {
    exists k :: 0 <= k < |rrs| && IsHintNs(rrs[k], name)
  }

  /** Names and addresses of the table, as NS records and glue. */
  predicate HoldsRows(ns: seq<ResourceRecord>, glue: seq<ResourceRecord>, rows: seq<HintRow>) {
    && (forall i :: 0 <= i < |rows| ==> HasNs(ns, rows[i].name))
    && |glue| == |rows| && forall i :: 0 <= i < |rows| ==> IsHintGlue(glue[i], rows[i])
  }

  /** The row gives an address of an enabled family. */
  predicate IsRowIp(ip: Ip, row: HintRow, use4: bool, use6: bool) {
    if row.isV4 then use4 && ip == Ip4(row.address) else use6 && ip == Ip6(row.address)
  }

  /** So the updater asks exactly the addresses of the table whose family is enabled. */
  lemma HintsGiveAddresses(ns: seq<ResourceRecord>, glue: seq<ResourceRecord>, rows: seq<HintRow>, use4: bool, use6: bool)
    requires HoldsRows(ns, glue, rows)
    ensures forall ip :: IsGlueIp(ip, ns, glue, use4, use6) <==>
              exists i :: 0 <= i < |rows| && IsRowIp(ip, rows[i], use4, use6)
  {
    forall ip
      ensures IsGlueIp(ip, ns, glue, use4, use6) <==> exists i :: 0 <= i < |rows| && IsRowIp(ip, rows[i], use4, use6)
    {
      if IsGlueIp(ip, ns, glue, use4, use6) {
        var n, g :| n in ns && g in glue && Names(n, g) &&
          ((use4 && g.rtype == A && ip == Ip4(g.address)) || (use6 && g.rtype == AAAA && ip == Ip6(g.address)));
        var i :| 0 <= i < |glue| && glue[i] == g;
        assert IsHintGlue(glue[i], rows[i]);
        assert IsRowIp(ip, rows[i], use4, use6);
      }
      if exists i :: 0 <= i < |rows| && IsRowIp(ip, rows[i], use4, use6) {
        var i :| 0 <= i < |rows| && IsRowIp(ip, rows[i], use4, use6);
        assert HasNs(ns, rows[i].name) && IsHintGlue(glue[i], rows[i]);
        var k :| 0 <= k < |ns| && IsHintNs(ns[k], rows[i].name);
        assert ns[k] in ns && glue[i] in glue && Names(ns[k], glue[i]);
      }
    }
  }

  lemma {:induction false} AllAreKept(rrs: seq<ResourceRecord>)
    requires forall k :: 0 <= k < |rrs| ==> Usable(rrs[k])
    ensures UsableOf(rrs) == rrs
    decreases |rrs|
  {
    if rrs != [] {
      AllAreKept(rrs[..|rrs|-1]);
    }
  }

  lemma AllUsable(rrs: seq<ResourceRecord>)
    requires AllHints(RecordSet(rrs))
    requires forall k :: 0 <= k < |rrs| ==> rrs[k].rtype == NS && rrs[k].name == ROOT
    ensures OneName(rrs) && (SomeUsable(rrs) <==> rrs != []) && UsableOf(rrs) == rrs
  {
    forall k | 0 <= k < |rrs|
      ensures Usable(rrs[k])
    {
      assert rrs[k] in RecordSet(rrs);
    }
    AllAreKept(rrs);
  }

  lemma ListedHints(rows: seq<HintRow>, ns: map<Name, ResourceRecord>, glue: seq<ResourceRecord>, list: seq<ResourceRecord>)
    requires Hints(rows, ns, glue) && RecordSet(list) == ns.Values
    ensures forall k :: 0 <= k < |list| ==> list[k].rtype == NS && list[k].name == ROOT
    ensures HoldsRows(list, glue, rows) && (list == [] <==> rows == [])
  {
    forall k | 0 <= k < |list|
      ensures list[k].rtype == NS && list[k].name == ROOT
    {
      assert list[k] in RecordSet(list);
    }
    forall i | 0 <= i < |rows|
      ensures HasNs(list, rows[i].name)
    {
      var r := ns[rows[i].name];
      assert r in ns.Values && r in RecordSet(list);
      var k :| 0 <= k < |list| && list[k] == r;
    }
    SameEmpty(list, ns);
    if rows != [] {
      assert HasNs(list, rows[0].name);
    }
  }

  lemma SameEmpty(list: seq<ResourceRecord>, ns: map<Name, ResourceRecord>)
    requires RecordSet(list) == ns.Values
    ensures ns == map[] ==> list == []
  {
    if list != [] {
      assert list[0] in RecordSet(list);
    }
  }

  lemma GlueMinimum(glue: seq<ResourceRecord>)
    requires AllHints(RecordSet(glue))
    ensures InitialMin(TWO_DAYS, [], Views(glue)) == TWO_DAYS * TICKS
  {
    assert forall i :: 0 <= i < |glue| ==> glue[i] in RecordSet(glue);
    HintMinimum(Views(glue));
  }

  /** What the two lists of a referral are made of. */
  ghost predicate ReferralLists(list: seq<ResourceRecord>, glue: seq<ResourceRecord>, rows: seq<HintRow>)
    reads RecordSet(list), RecordSet(glue)
  {
    && HoldsRows(list, glue, rows) && UsableOf(list) == list && OneName(list) && (SomeUsable(list) <==> rows != [])
    && (forall k :: 0 <= k < |list| ==> list[k].name == ROOT)
    && InitialMin(TWO_DAYS, [], Views(glue)) == TWO_DAYS * TICKS
    && forall r :: r in list + glue ==> r.ttl < TWO_TO_32
  }

  lemma HintsMakeLists(rows: seq<HintRow>, ns: map<Name, ResourceRecord>, glue: seq<ResourceRecord>,
                       list: seq<ResourceRecord>, made: set<ResourceRecord>)
    requires Hints(rows, ns, glue) && RecordSet(list) == ns.Values
    requires ns.Values <= made && RecordSet(glue) <= made && AllHints(made)
    ensures ReferralLists(list, glue, rows)
  {
    ListedHints(rows, ns, glue, list);
    AllUsable(list);
    GlueMinimum(glue);
    assert forall r :: r in list + glue ==> r in RecordSet(list) || r in RecordSet(glue);
  }

  /** The two lists the referral is made of. */
  method HintLists(rows: seq<HintRow>) returns (list: seq<ResourceRecord>, glue: seq<ResourceRecord>)
    ensures ReferralLists(list, glue, rows)
  {
    var ns;
    ghost var made;
    ns, glue, made := HintRecords(rows);
    list := ListOfValues(ns);
    HintsMakeLists(rows, ns, glue, list, made);
  }

  /** The referral made of the table. None stands for the exception an empty table ends
      in. */
  method MakeHints(rows: seq<HintRow>, now: int, sequence: nat) returns (made: Option<Answer>)
    ensures made.None? <==> rows == []
    ensures made.Some? ==>
              && fresh(made.value) && made.value.Valid() && made.value.sequence == sequence
              && made.value.Time() == Clock(now, TWO_DAYS * TICKS) && IsRoot(made.value.referralName)
              && HoldsRows(made.value.nsRecords, made.value.additionalRecords, rows)
  {
    var list, glue := HintLists(rows);
    made := CreateHints(list, glue, now, sequence);
  }

  method CreateHints(list: seq<ResourceRecord>, glue: seq<ResourceRecord>, now: int, sequence: nat)
    returns (made: Option<Answer>)
    requires forall r :: r in list + glue ==> r.ttl < TWO_TO_32
    requires OneName(list) && UsableOf(list) == list && forall k :: 0 <= k < |list| ==> list[k].name == ROOT
    ensures made.None? <==> !SomeUsable(list)
    ensures made.Some? ==>
              && fresh(made.value) && made.value.Valid() && made.value.sequence == sequence
              && made.value.Time() == Clock(now, InitialMin(TWO_DAYS, [], old(Views(glue))))
              && made.value.nsRecords == list && made.value.additionalRecords == glue
              && IsRoot(made.value.referralName)
  {
    assert [] + list + glue == list + glue;
    made := Answer.Create(sequence, Referral, TWO_DAYS, [], list, glue, now);
  }

  /** load_root_hints, into a cache without entries: the root entry knows every name and
      address of the table, and starts in a state the updater can keep alive. */
  method LoadRootHints(cache: Cache, rows: seq<HintRow>, now: int, sequence: nat) returns (root: Option<Answer>)
    requires cache.Valid() && cache.Cached() == {}
    modifies cache`referrals, cache`referralList, cache`numReferralRrs
    ensures root.None? <==> rows == []
    ensures root.None? ==> cache.referrals == old(cache.referrals)
    ensures root.Some? ==>
              var c := Clock(now, TWO_DAYS * TICKS);
              && Holds(cache, root.value, c, RecordSet(root.value.Records())) && Safe(c, now)
              && HoldsRows(root.value.nsRecords, root.value.additionalRecords, rows)
  {
    root := MakeHints(rows, now, sequence);
    if root.Some? {
      InstallRoot(cache, root.value, Clock(now, TWO_DAYS * TICKS), RecordSet(root.value.Records()));
    }
  }

  /** get_referral for the root name. */
  method FindRoot(cache: Cache, root: Answer, now: int, ghost c: Clock, ghost own: set<ResourceRecord>)
    returns (found: bool)
    requires Holds(cache, root, c, own)
    ensures found <==> !ExpiredAt(c, now)
    ensures Holds(cache, root, c, own)
  {
    assert root in cache.referrals.Values;
    assert cache.Referrals().entries[ROOT].clock == root.Time();
    assert ROOT[0..] == ROOT;
    var r := cache.GetReferral(ROOT, [now]);
    found := r.Found?;
  }

  /** set_ttls on the root entry, in its cache. */
  method ResetRoot(cache: Cache, root: Answer, ghost c: Clock, ghost own: set<ResourceRecord>)
    requires Holds(cache, root, c, own)
    modifies root`minTtl, own`ttl
    ensures Holds(cache, root, Clock(c.create, TWO_DAYS * TICKS), own) && TwoDaysLeft(root)
  {
    assert root in cache.referrals.Values;
    ghost var ans, refs := cache.Answers(), cache.Referrals();
    TouchAgrees(ans, refs, root.sequence, ResetTo(TWO_DAYS));
    cache.ResetCached(root, TWO_DAYS);
  }

  /** update_ttls on the root entry, in its cache. */
  method TickRoot(cache: Cache, root: Answer, now: int, ghost c: Clock, ghost own: set<ResourceRecord>)
    requires Holds(cache, root, c, own)
    modifies root`createTime, root`minTtl, own`ttl
    ensures Holds(cache, root, Tick(c, now), own)
  {
    assert root in cache.referrals.Values;
    ghost var ans, refs := cache.Answers(), cache.Referrals();
    TouchAgrees(ans, refs, root.sequence, Updated(now));
    cache.UpdateCached(root, now);
  }

  /** update_root_hints_now without a reply. */
  method HandleSilence(cache: Cache, root: Answer, now: int, ghost c: Clock, ghost own: set<ResourceRecord>)
    returns (r: Outcome)
    requires Holds(cache, root, c, own)
    modifies root`minTtl, own`ttl
    ensures r == UpdateNow(c, NoReply, now)
    ensures r.Running? ==> Holds(cache, root, r.c, own)
    ensures now <= old(root.createTime + root.minTtl) ==> r.Running? && TwoDaysLeft(root)
  {
    var found := FindRoot(cache, root, now, c, own);
    if found {
      ResetRoot(cache, root, c, own);
      r := Running(root.Time());
    } else {
      r := NoRoot;
    }
  }

  /** update_root_hints_now with a reply: the root entry afterwards. */
  method HandleReply(cache: Cache, root: Answer, answers: seq<ResourceRecord>, additional: seq<ResourceRecord>,
                     now: int, sequence: nat, ghost c: Clock, ghost own: set<ResourceRecord>, ghost kind: Reply)
    returns (r: Outcome, root': Answer)
    requires Holds(cache, root, c, own)
    requires forall b :: b in cache.Cached() ==> b.sequence != sequence
    requires forall x :: x in answers + additional ==> x.ttl < TWO_TO_32 && x in own
    requires kind == Judged(answers, additional)
    modifies cache`referrals, cache`referralList, cache`numReferralRrs, own`ttl
    ensures r == UpdateNow(c, kind, now)
    ensures r.Running? ==> Holds(cache, root', r.c, own)
    ensures root' == root || fresh(root')
    ensures kind.Accepted? ==> root'.createTime == now && TwoDaysLeft(root')
    ensures kind.Invalid? ==> root' == root && forall x :: x in own ==> x.ttl == old(x.ttl)
  {
    var ok := ValidateRootResponse(answers, additional);
    if !ok {
      return Running(root.Time()), root;
    }
    r, root' := StoreReply(cache, root, answers, additional, now, sequence, kind, own);
  }

  /** update_root_hints_now once the reply, if any, is in. */
  method UpdateRootHintsNow(cache: Cache, root: Answer, m: RootReply, now: int, sequence: nat,
                            ghost c: Clock, ghost own: set<ResourceRecord>, ghost kind: Reply)
    returns (r: Outcome, root': Answer)
    requires Holds(cache, root, c, own) && kind == Classify(m)
    requires forall b :: b in cache.Cached() ==> b.sequence != sequence
    requires forall x :: x in ReplyRecords(m) ==> x.ttl < TWO_TO_32 && x in own
    modifies cache`referrals, cache`referralList, cache`numReferralRrs, root`minTtl, own`ttl
    ensures r == UpdateNow(c, kind, now)
    ensures r.Running? ==> Holds(cache, root', r.c, own)
    ensures root' == root || fresh(root')
    ensures m.Silence? && now <= old(root.createTime + root.minTtl) ==>
              r.Running? && root' == root && root.createTime == old(root.createTime) && TwoDaysLeft(root)
    ensures kind.Accepted? ==> r.Running? && root'.createTime == now && TwoDaysLeft(root')
    ensures kind.Invalid? ==>
              r.Running? && root' == root && root.Time() == old(root.Time()) && forall x :: x in own ==> x.ttl == old(x.ttl)
  {
    match m
    case Silence =>
      root' := root;
      r := HandleSilence(cache, root, now, c, own);
    case Message(answers, additional) =>
      r, root' := HandleReply(cache, root, answers, additional, now, sequence, c, own, kind);
  }

  /** The end of a pass: the second lookup and the one-hour backstop. */
  method CheckRoot(cache: Cache, root: Answer, now: int, ghost c: Clock, ghost own: set<ResourceRecord>)
    returns (r: Outcome)
    requires Holds(cache, root, c, own)
    modifies root`minTtl, own`ttl
    ensures r == if ExpiredAt(c, now) then NoRoot else Running(Backstop(c))
    ensures r.Running? ==> Holds(cache, root, r.c, own)
    ensures r.Running? && (old(root.minTtl) < 3_600_000_000_000 || old(TwoDaysLeft(root))) ==> TwoDaysLeft(root)
  {
    var found := FindRoot(cache, root, now, c, own);
    if !found {
      return NoRoot;
    }
    if root.GetMinTtl() < ONE_HOUR {
      ResetRoot(cache, root, c, own);
    }
    r := Running(root.Time());
  }

  /** The part of a pass that asks the root servers. */
  method RefreshRoot(cache: Cache, root: Answer, at: Readings, m: RootReply, sequence: nat,
                     ghost c: Clock, ghost own: set<ResourceRecord>, ghost kind: Reply)
    returns (r: Outcome, root': Answer)
    requires Holds(cache, root, c, own) && kind == Classify(m)
    requires forall b :: b in cache.Cached() ==> b.sequence != sequence
    requires forall x :: x in ReplyRecords(m) ==> x.ttl < TWO_TO_32 && x in own
    modifies cache`referrals, cache`referralList, cache`numReferralRrs, root`minTtl, own`ttl
    ensures r == Refreshed(c, kind, at)
    ensures r.Running? ==> Holds(cache, root', r.c, own)
    ensures r.Running? && (!kind.Invalid? || old(root.minTtl) < 3_600_000_000_000) ==> TwoDaysLeft(root')
  {
    r, root' := UpdateRootHintsNow(cache, root, m, at.reply, sequence, c, own, kind);
    if r.Running? {
      r := CheckRoot(cache, root', at.second, r.c, own);
    }
  }

  /** Ticking the root entry leaves the records of a reply as they are. */
  method TickApart(cache: Cache, root: Answer, m: RootReply, now: int,
                   ghost c: Clock, ghost own: set<ResourceRecord>, ghost theirs: set<ResourceRecord>, ghost kind: Reply)
    requires Holds(cache, root, c, own) && own !! theirs && kind == Classify(m)
    requires forall x :: x in ReplyRecords(m) ==> x.ttl < TWO_TO_32 && x in theirs
    modifies root`createTime, root`minTtl, own`ttl
    ensures Holds(cache, root, Tick(c, now), own + theirs) && kind == Classify(m)
    ensures forall x :: x in ReplyRecords(m) ==> x.ttl < TWO_TO_32
  {
    assert forall x :: x in ReplyRecords(m) ==> x !in own;
    TickRoot(cache, root, now, c, own);
    ClassifyKept(m);
  }

  /** One pass of update_root_hints over the cache object follows `Pass` on the clock of
      its root entry. The records of a reply are its own, so `own` and `theirs` are apart. */
  method UpdateRootHints(cache: Cache, root: Answer, firstPass: bool, at: Readings, m: RootReply, sequence: nat,
                         ghost c: Clock, ghost own: set<ResourceRecord>, ghost theirs: set<ResourceRecord>, ghost kind: Reply)
    returns (r: Outcome, root': Answer)
    requires Holds(cache, root, c, own) && own !! theirs && kind == Classify(m)
    requires forall b :: b in cache.Cached() ==> b.sequence != sequence
    requires forall x :: x in ReplyRecords(m) ==> x.ttl < TWO_TO_32 && x in theirs
    modifies cache`referrals, cache`referralList, cache`numReferralRrs, root`createTime, root`minTtl
    modifies own`ttl, theirs`ttl
    ensures r == Pass(firstPass, c, at, kind)
    ensures r.Running? ==> Holds(cache, root', r.c, own + theirs)
    ensures r.Running? && Asks(firstPass, c, at) && (!kind.Invalid? || Tick(c, at.update).min < 3_600_000_000_000) ==>
              TwoDaysLeft(root')
  {
    root' := root;
    var found := FindRoot(cache, root, at.first, c, own);
    if !found {
      return NoRoot, root;
    }
    TickApart(cache, root, m, at.update, c, own, theirs, kind);
    if firstPass || root.GetMinTtl() < ONE_DAY {
      r, root' := RefreshRoot(cache, root, at, m, sequence, Tick(c, at.update), own + theirs, kind);
    } else {
      r := Running(root.Time());
    }
  }
}
