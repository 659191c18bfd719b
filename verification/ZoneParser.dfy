/** Parsing a whole zone file: the statements of a file, run one after the other with the
    origin, default TTL, last name and last TTL they leave. */
module ZoneParser {
  import opened Dns
  import opened Text
  import opened ZoneReader
  import opened ZoneUtil
  import opened ZoneStatement

  /** How the statements of a text end: properly, in an exception, or in an endless loop. */
  datatype Ending = AtEnd | Broken | Looping

  datatype Statements = Statements(raws: seq<Raw>, ending: Ending)

  predicate RawsOk(raws: seq<Raw>) {
    forall i :: 0 <= i < |raws| ==> RawOk(raws[i])
  }

  /** The statements of a text. */
  function StatementsOf(s: string): (r: Statements)
    ensures RawsOk(r.raws)
    decreases |s|
  {
    match NextRaw(s)
    case Done => Statements([], AtEnd)
    case BadStep => Statements([], Broken)
    case StuckStep => Statements([], Looping)
    case Next(raw, rest) =>
      var more := StatementsOf(rest);
      Statements([raw] + more.raws, more.ending)
  }

  /** The files an include can name, and the library checks. */
  datatype World = World(files: map<string, string>, checks: Checks)

  datatype Result = Parsed(records: seq<Record>) | Raised | NeverEnds

  function Following(rs: seq<Record>, r: Result): Result {
    if r.Parsed? then Parsed(rs + r.records) else r
  }

  function AfterRecord(ctx: Context, r: Record): Context {
    ctx.(lastName := r.name, lastTtl := r.ttl)
  }

  /** A file is parsed from its own start: nothing is left of the including file but
      origin and default TTL. */
  function FreshContext(origin: Option<string>, ttl: Option<nat>): Context {
    Context(origin, ttl, None, None)
  }

  /** The context after a statement. */
  function NextContext(st: Statement, ctx: Context): Context {
    match st
    case OriginStatement(o) => ctx.(origin := Some(o))
    case TtlStatement(n) => ctx.(ttl := Some(n))
    case RecordStatement(r) => AfterRecord(ctx, r)
    case _ => ctx
  }

  /** The records a statement contributes. */
  function Output(st: Statement, ctx: Context, w: World, depth: nat): Result
    decreases depth, 1
  {
    match st
    case RecordStatement(r) => Parsed([r])
    case IncludeStatement(name) => Included(name, ctx, w, depth)
    case _ => Parsed([])
  }

  /** The records the statements produce; `depth` more files may be included in each other
      before the interpreter gives up. */
  function Run(raws: seq<Raw>, ending: Ending, ctx: Context, w: World, depth: nat): Result
    requires RawsOk(raws)
    decreases depth, |raws| + 2
  {
    if raws == [] then
      match ending
      case AtEnd => Parsed([])
      case Broken => Raised
      case Looping => NeverEnds
    else
      match Meaning(raws[0], ctx, w.checks)
      case None => Raised
      case Some(st) =>
        var out := Output(st, ctx, w, depth);
        if out.Parsed? then Following(out.records, Run(raws[1..], ending, NextContext(st, ctx), w, depth)) else out
  }

  /** The records of an included file. */
  function Included(name: string, ctx: Context, w: World, depth: nat): Result
    decreases depth, 0
  {
    if depth == 0 || name !in w.files then Raised
    else
      var sts := StatementsOf(Without(w.files[name], '\r'));
      Run(sts.raws, sts.ending, FreshContext(ctx.origin, ctx.ttl), w, depth - 1)
  }

  /** The records of a text, as the reader gives it. */
  function ParseText(s: string, ctx: Context, w: World, depth: nat): Result {
    Run(StatementsOf(s).raws, StatementsOf(s).ending, ctx, w, depth)
  }

  lemma FollowingNothing(r: Result)
    ensures Following([], r) == r
  {
    if r.Parsed? {
      assert [] + r.records == r.records;
    }
  }

  lemma FollowingEnd(rs: seq<Record>)
    ensures Following(rs, Parsed([])) == Parsed(rs)
  {
    assert rs + [] == rs;
  }

  lemma FollowingMore(a: seq<Record>, b: seq<Record>, r: Result)
    ensures Following(a, Following(b, r)) == Following(a + b, r)
  {
    if r.Parsed? {
      assert a + (b + r.records) == a + b + r.records;
    }
  }

  /** What one statement does to the rest of the run. */
  function RunStatement(st: Statement, rest: string, ctx: Context, w: World, depth: nat): Result {
    var out := Output(st, ctx, w, depth);
    if out.Parsed? then Following(out.records, ParseText(rest, NextContext(st, ctx), w, depth)) else out
  }

  function RunNext(raw: Raw, rest: string, ctx: Context, w: World, depth: nat): Result
    requires RawOk(raw)
  {
    match Meaning(raw, ctx, w.checks)
    case None => Raised
    case Some(st) => RunStatement(st, rest, ctx, w, depth)
  }

  lemma ParseStep(s: string, ctx: Context, w: World, depth: nat)
    ensures ParseText(s, ctx, w, depth) ==
            match NextRaw(s)
            case Done => Parsed([])
            case BadStep => Raised
            case StuckStep => NeverEnds
            case Next(raw, rest) => RunNext(raw, rest, ctx, w, depth)
  {
    match NextRaw(s)
    case Next(raw, rest) =>
      var raws := StatementsOf(s).raws;
      assert raws[0] == raw && raws[1..] == StatementsOf(rest).raws;
    case _ =>
  }

  lemma IncludeOutput(name: string, ctx: Context, w: World, depth: nat)
    ensures Output(IncludeStatement(name), ctx, w, depth) ==
            if depth == 0 || name !in w.files then Raised
            else ParseText(Without(w.files[name], '\r'), FreshContext(ctx.origin, ctx.ttl), w, depth - 1)
  {
  }

  // ---- The parser ----

  /** The next statement, and what it leaves to be parsed. */
  method ReadNext(f: Reader, ctx: Context, w: World, ghost depth: nat) returns (s: ReadResult)
    requires f.Valid()
    modifies f
    ensures f.Valid()
    ensures var before := ParseText(old(f.Pending()), ctx, w, depth);
            match s
            case NoMore => before == Parsed([])
            case Fails => before == Raised
            case Loops => before == NeverEnds
            case Read(st) =>
              |f.Pending()| < |old(f.Pending())| && before == RunStatement(st, f.Pending(), ctx, w, depth)
  {
    ParseStep(f.Pending(), ctx, w, depth);
    s := ReadStatement(f, ctx, w.checks);
  }

  /** The recursive call for an included file; opening a missing file throws, and so does
      a call beyond the interpreter's depth. */
  method IncludeFile(name: string, ctx: Context, w: World, depth: nat) returns (r: Result)
    ensures r == Output(IncludeStatement(name), ctx, w, depth)
    decreases depth, 0
  {
    IncludeOutput(name, ctx, w, depth);
    if depth == 0 || name !in w.files {
      return Raised;
    }
    r := GetResourceRecords(w.files[name], ctx.origin, ctx.ttl, w, depth - 1);
  }

  /** get_resource_records, for a file that exists: the while loop that threads the
      context from statement to statement. */
  method GetResourceRecords(text: string, origin: Option<string>, ttl: Option<nat>, w: World, depth: nat)
    returns (r: Result)
    ensures r == ParseText(Without(text, '\r'), FreshContext(origin, ttl), w, depth)
    decreases depth, 1
  {
    var result := [];
    var f := new Reader(text);
    var currentOrigin, currentTtl := origin, ttl;
    var lastName: Option<string>, lastTtl: Option<nat> := None, None;
    ghost var want := ParseText(f.Pending(), FreshContext(origin, ttl), w, depth);
    FollowingNothing(want);
    while true
      invariant f.Valid() && fresh(f)
      invariant want == Following(result, ParseText(f.Pending(), Context(currentOrigin, currentTtl, lastName, lastTtl), w, depth))
      decreases |f.Pending()|
    {
      var ctx := Context(currentOrigin, currentTtl, lastName, lastTtl);
      var s := ReadNext(f, ctx, w, depth);
      match s
      case NoMore =>
        FollowingEnd(result);
        return Parsed(result);
      case Fails => return Raised;
      case Loops => return NeverEnds;
      case Read(st) =>
        FollowingNothing(ParseText(f.Pending(), NextContext(st, ctx), w, depth));
        match st
        case OriginStatement(o) => currentOrigin := Some(o);
        case TtlStatement(n) => currentTtl := Some(n);
        case CommentStatement =>
        case IncludeStatement(name) =>
          var included := IncludeFile(name, ctx, w, depth);
          if !included.Parsed? {
            return included;
          }
          FollowingMore(result, included.records, ParseText(f.Pending(), ctx, w, depth));
          result := result + included.records;
        case RecordStatement(record) =>
          FollowingMore(result, [record], ParseText(f.Pending(), AfterRecord(ctx, record), w, depth));
          result := result + [record];
          lastName, lastTtl := record.name, record.ttl;
    }
  }
}
