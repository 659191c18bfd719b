/** What a statement of a zone file falls back on, and what a whole file contributes: the
    context in terms of the statements before, and the records in their turn. */
module ZoneContext {
  import opened Dns
  import opened Text
  import opened ZoneUtil
  import opened ZoneStatement
  import opened ZoneParser

  /** The context after a statement, if it was accepted. */
  function Advance(st: Option<Statement>, ctx: Context): Context {
    if st.Some? then NextContext(st.value, ctx) else ctx
  }

  /** The context statement k is read in. */
  function ContextAt(raws: seq<Raw>, ctx: Context, c: Checks, k: nat): Context
    requires RawsOk(raws) && k <= |raws|
  {
    if k == 0 then ctx
    else
      var before := ContextAt(raws, ctx, c, k - 1);
      Advance(Meaning(raws[k-1], before, c), before)
  }

  /** What statement k says; None is the exception. */
  function StatementAt(raws: seq<Raw>, ctx: Context, c: Checks, k: nat): Option<Statement>
    requires RawsOk(raws) && k < |raws|
  {
    Meaning(raws[k], ContextAt(raws, ctx, c, k), c)
  }

  predicate IsOrigin(st: Option<Statement>) {
    st.Some? && st.value.OriginStatement?
  }

  predicate IsTtl(st: Option<Statement>) {
    st.Some? && st.value.TtlStatement?
  }

  predicate IsRecord(st: Option<Statement>) {
    st.Some? && st.value.RecordStatement?
  }

  ghost predicate NoOrigin(raws: seq<Raw>, ctx: Context, c: Checks, i: nat, k: nat)
    requires RawsOk(raws) && k <= |raws|
  {
    forall j :: i <= j < k ==> !IsOrigin(StatementAt(raws, ctx, c, j))
  }

  ghost predicate NoTtl(raws: seq<Raw>, ctx: Context, c: Checks, i: nat, k: nat)
    requires RawsOk(raws) && k <= |raws|
  {
    forall j :: i <= j < k ==> !IsTtl(StatementAt(raws, ctx, c, j))
  }

  ghost predicate NoRecord(raws: seq<Raw>, ctx: Context, c: Checks, i: nat, k: nat)
    requires RawsOk(raws) && k <= |raws|
  {
    forall j :: i <= j < k ==> !IsRecord(StatementAt(raws, ctx, c, j))
  }

  /** Nothing but its own kind of statement changes a part of the context. */
  lemma OneStep(st: Option<Statement>, ctx: Context)
    ensures !IsOrigin(st) ==> Advance(st, ctx).origin == ctx.origin
    ensures !IsTtl(st) ==> Advance(st, ctx).ttl == ctx.ttl
    ensures !IsRecord(st) ==> Advance(st, ctx).lastName == ctx.lastName && Advance(st, ctx).lastTtl == ctx.lastTtl
    ensures IsOrigin(st) ==> Advance(st, ctx).origin == Some(st.value.origin)
    ensures IsTtl(st) ==> Advance(st, ctx).ttl == Some(st.value.ttl)
    ensures IsRecord(st) ==> Advance(st, ctx).lastName == st.value.record.name && Advance(st, ctx).lastTtl == st.value.record.ttl
  {
  }

  lemma ContextNext(raws: seq<Raw>, ctx: Context, c: Checks, k: nat)
    requires RawsOk(raws) && k < |raws|
    ensures ContextAt(raws, ctx, c, k + 1) == Advance(StatementAt(raws, ctx, c, k), ContextAt(raws, ctx, c, k))
  {
  }

  lemma {:induction false} OriginStays(raws: seq<Raw>, ctx: Context, c: Checks, i: nat, k: nat)
    requires RawsOk(raws) && i <= k <= |raws| && NoOrigin(raws, ctx, c, i, k)
    ensures ContextAt(raws, ctx, c, k).origin == ContextAt(raws, ctx, c, i).origin
    decreases k - i
  {
    if i < k {
      OriginStays(raws, ctx, c, i, k - 1);
      ContextNext(raws, ctx, c, k - 1);
      OneStep(StatementAt(raws, ctx, c, k - 1), ContextAt(raws, ctx, c, k - 1));
    }
  }

  lemma {:induction false} TtlStays(raws: seq<Raw>, ctx: Context, c: Checks, i: nat, k: nat)
    requires RawsOk(raws) && i <= k <= |raws| && NoTtl(raws, ctx, c, i, k)
    ensures ContextAt(raws, ctx, c, k).ttl == ContextAt(raws, ctx, c, i).ttl
    decreases k - i
  {
    if i < k {
      TtlStays(raws, ctx, c, i, k - 1);
      ContextNext(raws, ctx, c, k - 1);
      OneStep(StatementAt(raws, ctx, c, k - 1), ContextAt(raws, ctx, c, k - 1));
    }
  }

  /** All contexts of a file, and what its statements say in them. */
  function Contexts(raws: seq<Raw>, ctx: Context, c: Checks): (r: seq<Context>)
    requires RawsOk(raws)
    ensures |r| == |raws| + 1 && forall i :: 0 <= i <= |raws| ==> r[i] == ContextAt(raws, ctx, c, i)
  {
    seq(|raws| + 1, i requires 0 <= i <= |raws| => ContextAt(raws, ctx, c, i))
  }

  function Said(raws: seq<Raw>, ctx: Context, c: Checks): (r: seq<Option<Statement>>)
    requires RawsOk(raws)
    ensures |r| == |raws| && forall i :: 0 <= i < |raws| ==> r[i] == StatementAt(raws, ctx, c, i)
  {
    seq(|raws|, i requires 0 <= i < |raws| => StatementAt(raws, ctx, c, i))
  }

  ghost predicate Chained(cs: seq<Context>, sts: seq<Option<Statement>>) {
    |cs| == |sts| + 1 && forall i :: 0 <= i < |sts| ==> cs[i+1] == Advance(sts[i], cs[i])
  }

  lemma ContextsAreChained(raws: seq<Raw>, ctx: Context, c: Checks)
    requires RawsOk(raws)
    ensures Chained(Contexts(raws, ctx, c), Said(raws, ctx, c))
  {
    forall i | 0 <= i < |raws|
      ensures Contexts(raws, ctx, c)[i+1] == Advance(Said(raws, ctx, c)[i], Contexts(raws, ctx, c)[i])
    {
      ContextNext(raws, ctx, c, i);
    }
  }

  lemma {:induction false} LastInChain(cs: seq<Context>, sts: seq<Option<Statement>>, j: nat, k: nat, r: Record)
    requires Chained(cs, sts) && j < k <= |sts| && sts[j] == Some(RecordStatement(r))
    requires forall i :: j < i < k ==> !IsRecord(sts[i])
    ensures Last(cs[k]) == (r.name, r.ttl)
    decreases k
  {
    OneStep(sts[k-1], cs[k-1]);
    if k > j + 1 {
      LastInChain(cs, sts, j, k - 1, r);
    }
  }

  /** At statement k the origin is the one the last `$ORIGIN` line before it names (or that
      of the start, as none changes it); ... */
  lemma OriginAt(raws: seq<Raw>, ctx: Context, c: Checks, j: nat, k: nat, o: string)
    requires RawsOk(raws) && j < k <= |raws| && StatementAt(raws, ctx, c, j) == Some(OriginStatement(o)) && NoOrigin(raws, ctx, c, j + 1, k)
    ensures ContextAt(raws, ctx, c, k).origin == Some(o)
  {
    OriginStays(raws, ctx, c, j + 1, k);
    ContextNext(raws, ctx, c, j);
    OneStep(StatementAt(raws, ctx, c, j), ContextAt(raws, ctx, c, j));
  }

  /** ... the default TTL is the one the last `$TTL` line before it gives; ... */
  lemma DefaultTtlAt(raws: seq<Raw>, ctx: Context, c: Checks, j: nat, k: nat, n: nat)
    requires RawsOk(raws) && j < k <= |raws| && StatementAt(raws, ctx, c, j) == Some(TtlStatement(n)) && NoTtl(raws, ctx, c, j + 1, k)
    ensures ContextAt(raws, ctx, c, k).ttl == Some(n)
  {
    TtlStays(raws, ctx, c, j + 1, k);
    ContextNext(raws, ctx, c, j);
    OneStep(StatementAt(raws, ctx, c, j), ContextAt(raws, ctx, c, j));
  }

  /** Owner and TTL of the last record. */
  function Last(ctx: Context): (Option<string>, Option<nat>) {
    (ctx.lastName, ctx.lastTtl)
  }

  /** ... and last owner and TTL are those of the last record before it, included files
      aside. */
  lemma LastRecordAt(raws: seq<Raw>, ctx: Context, c: Checks, j: nat, k: nat, r: Record)
    requires RawsOk(raws) && j < k <= |raws| && StatementAt(raws, ctx, c, j) == Some(RecordStatement(r))
    requires NoRecord(raws, ctx, c, j + 1, k)
    ensures Last(ContextAt(raws, ctx, c, k)) == (r.name, r.ttl)
  {
    ContextsAreChained(raws, ctx, c);
    LastInChain(Contexts(raws, ctx, c), Said(raws, ctx, c), j, k, r);
  }

  // ---- The records of a file ----

  /** What statement k adds: a record itself, an included file all its records. The file is
      parsed from the origin and default TTL of the moment, without a last record. */
  function Contribution(raws: seq<Raw>, ctx: Context, w: World, depth: nat, k: nat): Result
    requires RawsOk(raws) && k < |raws|
  {
    var at := ContextAt(raws, ctx, w.checks, k);
    match StatementAt(raws, ctx, w.checks, k)
    case None => Raised
    case Some(RecordStatement(r)) => Parsed([r])
    case Some(IncludeStatement(name)) =>
      if depth == 0 || name !in w.files then Raised
      else ParseText(Without(w.files[name], '\r'), Context(at.origin, at.ttl, None, None), w, depth - 1)
    case Some(_) => Parsed([])
  }

  ghost predicate AllParsed(raws: seq<Raw>, ctx: Context, w: World, depth: nat, k: nat)
    requires RawsOk(raws) && k <= |raws|
  {
    forall j :: 0 <= j < k ==> Contribution(raws, ctx, w, depth, j).Parsed?
  }

  /** The records of the first k statements. */
  ghost function Records(raws: seq<Raw>, ctx: Context, w: World, depth: nat, k: nat): seq<Record>
    requires RawsOk(raws) && k <= |raws| && AllParsed(raws, ctx, w, depth, k)
  {
    if k == 0 then [] else Records(raws, ctx, w, depth, k - 1) + Contribution(raws, ctx, w, depth, k - 1).records
  }

  lemma ContributionIsOutput(raws: seq<Raw>, ctx: Context, w: World, depth: nat, k: nat)
    requires RawsOk(raws) && k < |raws| && StatementAt(raws, ctx, w.checks, k).Some?
    ensures Contribution(raws, ctx, w, depth, k) ==
            Output(StatementAt(raws, ctx, w.checks, k).value, ContextAt(raws, ctx, w.checks, k), w, depth)
  {
    var st := StatementAt(raws, ctx, w.checks, k).value;
    if st.IncludeStatement? {
      IncludeOutput(st.file, ContextAt(raws, ctx, w.checks, k), w, depth);
    }
  }

  lemma RunStep(raws: seq<Raw>, ending: Ending, ctx: Context, w: World, depth: nat, k: nat)
    requires RawsOk(raws) && k < |raws| && Contribution(raws, ctx, w, depth, k).Parsed?
    ensures Run(raws[k..], ending, ContextAt(raws, ctx, w.checks, k), w, depth) ==
            Following(Contribution(raws, ctx, w, depth, k).records,
                      Run(raws[k+1..], ending, ContextAt(raws, ctx, w.checks, k + 1), w, depth))
  {
    ContributionIsOutput(raws, ctx, w, depth, k);
    ContextNext(raws, ctx, w.checks, k);
    assert raws[k..][0] == raws[k] && raws[k..][1..] == raws[k+1..];
  }

  lemma {:induction false} RunFrom(raws: seq<Raw>, ending: Ending, ctx: Context, w: World, depth: nat, k: nat)
    requires RawsOk(raws) && k <= |raws| && AllParsed(raws, ctx, w, depth, k)
    ensures Run(raws, ending, ctx, w, depth) ==
            Following(Records(raws, ctx, w, depth, k), Run(raws[k..], ending, ContextAt(raws, ctx, w.checks, k), w, depth))
    decreases k
  {
    if k == 0 {
      assert raws[0..] == raws;
      FollowingNothing(Run(raws, ending, ctx, w, depth));
    } else {
      RunFrom(raws, ending, ctx, w, depth, k - 1);
      var last := Contribution(raws, ctx, w, depth, k - 1);
      RunStep(raws, ending, ctx, w, depth, k - 1);
      BothFollow(Records(raws, ctx, w, depth, k - 1), last.records, Run(raws, ending, ctx, w, depth),
                 Run(raws[k-1..], ending, ContextAt(raws, ctx, w.checks, k - 1), w, depth),
                 Run(raws[k..], ending, ContextAt(raws, ctx, w.checks, k), w, depth));
    }
  }

  lemma BothFollow(a: seq<Record>, b: seq<Record>, whole: Result, part: Result, rest: Result)
    requires whole == Following(a, part) && part == Following(b, rest)
    ensures whole == Following(a + b, rest)
  {
    FollowingMore(a, b, rest);
  }

  /** A file whose statements all come through gives their records in their turn. */
  lemma RecordsInTurn(raws: seq<Raw>, ending: Ending, ctx: Context, w: World, depth: nat)
    requires RawsOk(raws) && AllParsed(raws, ctx, w, depth, |raws|)
    ensures Run(raws, ending, ctx, w, depth) ==
            match ending
            case AtEnd => Parsed(Records(raws, ctx, w, depth, |raws|))
            case Broken => Raised
            case Looping => NeverEnds
  {
    RunFrom(raws, ending, ctx, w, depth, |raws|);
    assert raws[|raws|..] == [];
    FollowingEnd(Records(raws, ctx, w, depth, |raws|));
  }

  /** Otherwise the first one that does not decides. */
  lemma FirstFailureDecides(raws: seq<Raw>, ending: Ending, ctx: Context, w: World, depth: nat, k: nat)
    requires RawsOk(raws) && k < |raws| && AllParsed(raws, ctx, w, depth, k)
    requires !Contribution(raws, ctx, w, depth, k).Parsed?
    ensures Run(raws, ending, ctx, w, depth) == Contribution(raws, ctx, w, depth, k)
  {
    RunFrom(raws, ending, ctx, w, depth, k);
    assert raws[k..][0] == raws[k];
    if StatementAt(raws, ctx, w.checks, k).Some? {
      ContributionIsOutput(raws, ctx, w, depth, k);
    }
  }
}
