/** Zone file statements: control entries and resource records, the latter collected token
    by token over bracketed lines and then assembled. */
module ZoneStatement {
  import opened Dns
  import opened Text
  import opened ZoneReader
  import opened ZoneToken
  import opened ZoneUtil
  import opened ZoneRdata

  /** A record. Name and TTL can be missing: the source does not refuse every record for
      which it finds none. */
  datatype Record = Record(name: Option<string>, ttl: Option<nat>, rtype: string, data: Data)

  /** What earlier statements leave for a record to fall back on. */
  datatype Context = Context(origin: Option<string>, ttl: Option<nat>, lastName: Option<string>, lastTtl: Option<nat>)

  function OrElse<T>(a: Option<T>, b: Option<T>): Option<T> {
    if a.Some? then a else b
  }

  // ---- Assembling a record ----

  /** get_name; None is the exception. */
  function NameOf(origin: Option<string>, name: Option<string>): Option<string> {
    if name.None? || name.value == "" then None
    else if name.value == "@" then origin
    else FormName(origin, name.value)
  }

  predicate IsType(t: Token) {
    t.Word? && Supported(t.text)
  }

  /** The index of the first token that is a record type; |ts| when there is none. */
  function TypeIndex(ts: seq<Token>): (i: nat)
    ensures i <= |ts| && (i < |ts| ==> IsType(ts[i]))
    ensures forall k :: 0 <= k < i ==> !IsType(ts[k])
  {
    if ts == [] || IsType(ts[0]) then 0 else 1 + TypeIndex(ts[1..])
  }

  /** find_record_type. None is the exception. */
  method FindRecordType(ts: seq<Token>) returns (r: Option<nat>)
    ensures r == if TypeIndex(ts) < |ts| then Some(TypeIndex(ts)) else None
  {
    var i := 0;
    while i < |ts|
      invariant 0 <= i <= |ts| && forall k :: 0 <= k < i ==> !IsType(ts[k])
    {
      if ts[i].Word? {
        if Supported(ts[i].text) {
          return Some(i);
        }
      }
      i := i + 1;
    }
    r := None;
  }

  datatype Left = Left(name: Option<string>, ttl: Option<nat>)

  function WithName(name: Option<string>, ttl: Option<nat>): Option<Left> {
    if name.None? then None else Some(Left(name, ttl))
  }

  function WithBoth(name: Option<string>, ttl: Option<nat>): Option<Left> {
    if name.None? || ttl.None? then None else Some(Left(name, ttl))
  }

  /** What two tokens left of the type say: one of TTL IN, IN TTL, NAME IN, NAME TTL. */
  function TwoLeft(l: string, r: string, ctx: Context): Option<Left> {
    var lastName, lastTtl := OrElse(ctx.lastName, ctx.origin), OrElse(ctx.lastTtl, ctx.ttl);
    if TtlOf(l).Some? then (if r == "IN" then Some(Left(lastName, TtlOf(l))) else None)
    else if l == "IN" then (if TtlOf(r).Some? then Some(Left(lastName, TtlOf(r))) else None)
    else if r == "IN" then WithName(NameOf(ctx.origin, Some(l)), lastTtl)
    else if TtlOf(r).Some? then WithName(NameOf(ctx.origin, Some(l)), TtlOf(r))
    else None
  }

  /** The owner and TTL the tokens left of the type give a record. Tokens past the third
      leave the name unset, and a missing TTL is not always an error. */
  function LeftOf(left: seq<Token>, ctx: Context): Option<Left> {
    var lastName, lastTtl := OrElse(ctx.lastName, ctx.origin), OrElse(ctx.lastTtl, ctx.ttl);
    if |left| == 0 then WithBoth(lastName, lastTtl)
    else if |left| == 1 then
      if lastName.None? then None
      else WithBoth(if left[0].Value() == Some("IN") then lastName else NameOf(ctx.origin, left[0].Value()), lastTtl)
    else if |left| == 2 then
      if !left[0].Word? || left[1].Value().None? then None else TwoLeft(left[0].text, left[1].Value().value, ctx)
    else if |left| == 3 then
      var name := NameOf(ctx.origin, left[0].Value());
      if left[1].Value().None? || left[2].Value().None? then None
      else if left[1].Value() == Some("IN") then WithBoth(name, TtlOf(left[2].Value().value))
      else if left[2].Value() == Some("IN") then WithBoth(name, TtlOf(left[1].Value().value))
      else None
    else Some(Left(None, lastTtl))
  }

  /** Only the first token of a record may lack a value: a bracket that opens the line. */
  predicate RecordTokens(ts: seq<Token>) {
    ts != [] && forall i :: 1 <= i < |ts| ==> HasValue(ts[i])
  }

  /** The record the tokens stand for; None is the exception. */
  function Assemble(ts: seq<Token>, ctx: Context, c: Checks): Option<Record>
    requires RecordTokens(ts)
  {
    var i := TypeIndex(ts);
    if i >= |ts| - 1 then None else RecordAt(ts, i, ctx, c)
  }

  /** The record of tokens whose type stands at i. */
  function RecordAt(ts: seq<Token>, i: nat, ctx: Context, c: Checks): Option<Record>
    requires RecordTokens(ts) && i < |ts| && ts[i].Word?
  {
    var left := LeftOf(ts[..i], ctx);
    var data := RdataOf(ts[i].text, ctx.origin, ts[i+1..], c);
    if left.None? || data.None? then None
    else Some(Record(left.value.name, left.value.ttl, ts[i].text, data.value))
  }

  /** The two-token case of assemble_record. */
  method AssembleTwo(left: string, right: string, ctx: Context) returns (r: Option<Left>)
    ensures r == TwoLeft(left, right, ctx)
  {
    var lastName, lastTtl := OrElse(ctx.lastName, ctx.origin), OrElse(ctx.lastTtl, ctx.ttl);
    var leftTtl := TranslateTtl(left);
    var rightTtl := TranslateTtl(right);
    var leftIsIn, rightIsIn := left == "IN", right == "IN";
    var leftIsName := leftTtl.None? && !leftIsIn;
    var name, ttl := None, None;
    InIsNoTtl();
    if leftTtl.Some? && rightIsIn {
      ttl := leftTtl;
      name := lastName;
    } else if leftIsIn && rightTtl.Some? {
      ttl := rightTtl;
      name := lastName;
    } else if leftIsName && rightIsIn {
      name := NameOf(ctx.origin, Some(left));
      if name.None? {
        return None;
      }
    } else if leftIsName && rightTtl.Some? {
      name := NameOf(ctx.origin, Some(left));
      if name.None? {
        return None;
      }
      ttl := rightTtl;
    } else {
      return None;
    }
    if ttl.None? {
      ttl := lastTtl;
    }
    r := Some(Left(name, ttl));
  }

  lemma InIsNoTtl()
    ensures TtlOf("IN").None?
  {
    assert Lower("IN")[0] == 'i';
  }

  /** The part of assemble_record that finds owner and TTL. */
  method AssembleLeft(ts: seq<Token>, i: nat, ctx: Context) returns (r: Option<Left>)
    requires i <= |ts| && RecordTokens(ts)
    ensures r == LeftOf(ts[..i], ctx)
  {
    var lastName, lastTtl := ctx.lastName, ctx.lastTtl;
    if lastName == None {
      lastName := ctx.origin;
    }
    if lastTtl == None {
      lastTtl := ctx.ttl;
    }
    var name, ttl := None, None;
    if i == 0 {
      if lastName.None? || lastTtl.None? {
        return None;
      }
      name, ttl := lastName, lastTtl;
    } else if i == 1 {
      if lastName.None? || lastTtl.None? {
        return None;
      }
      if ts[0].Value() == Some("IN") {
        name := lastName;
      } else {
        name := NameOf(ctx.origin, ts[0].Value());
        if name.None? {
          return None;
        }
      }
      ttl := lastTtl;
    } else if i == 2 {
      if !ts[0].Word? {
        return None;
      }
      r := AssembleTwo(ts[0].text, ts[1].Value().value, ctx);
      return;
    } else if i == 3 {
      name := NameOf(ctx.origin, ts[0].Value());
      if name.None? {
        return None;
      }
      if ts[1].Value() == Some("IN") {
        ttl := TranslateTtl(ts[2].Value().value);
      } else if ts[2].Value() == Some("IN") {
        ttl := TranslateTtl(ts[1].Value().value);
      }
      if ttl.None? {
        return None;
      }
    }
    if ttl.None? {
      ttl := lastTtl;
    }
    r := Some(Left(name, ttl));
  }

  /** The part of assemble_record after the type is found. */
  method AssembleAt(ts: seq<Token>, i: nat, ctx: Context, c: Checks) returns (r: Option<Record>)
    requires RecordTokens(ts) && i < |ts| && ts[i].Word?
    ensures r == RecordAt(ts, i, ctx, c)
  {
    var left := AssembleLeft(ts, i, ctx);
    if left.None? {
      return None;
    }
    var data := ParseRdata(ts[i].text, ctx.origin, ts[i+1..], c);
    if data.None? {
      return None;
    }
    r := Some(Record(left.value.name, left.value.ttl, ts[i].text, data.value));
  }

  /** assemble_record. None is the exception. */
  method AssembleRecord(ts: seq<Token>, ctx: Context, c: Checks) returns (r: Option<Record>)
    requires RecordTokens(ts)
    ensures r == Assemble(ts, ctx, c)
  {
    var found := FindRecordType(ts);
    if found.None? {
      return None;
    }
    var i := found.value;
    if i == |ts| - 1 {
      return None;
    }
    r := AssembleAt(ts, i, ctx, c);
  }

  // ---- Collecting the tokens of a record ----

  datatype Gathered = Collected(tokens: seq<Token>, rest: string) | BadRecord | Unending

  function Preceded(t: Token, g: Gathered): Gathered {
    if g.Collected? then Collected([t] + g.tokens, g.rest) else g
  }

  /** The tokens up to the end of the record. Inside brackets line ends and comments are
      skipped; the end of the file inside brackets is read over and over. */
  function Collect(s: string, inBrackets: bool): (g: Gathered)
    ensures g.Collected? ==> |g.rest| <= |s| && AllHaveValues(g.tokens)
    decreases |s|
  {
    match Lex(s)
    case End => if inBrackets then Unending else Collected([], "")
    case Raise => BadRecord
    case Hang => Unending
    case Tok(t, rest) =>
      match t
      case Eol => if inBrackets then Collect(rest, true) else Collected([], rest)
      case Comment => if inBrackets then Collect(rest, true) else Collected([], rest)
      case Close => if inBrackets then Collect(rest, false) else BadRecord
      case Open => if inBrackets then BadRecord else Collect(rest, true)
      case _ => if HasValue(t) then Preceded(t, Collect(rest, inBrackets)) else BadRecord
  }

  // ---- Statements ----

  /** A statement as the tokens give it, before any default is looked up. */
  datatype Raw =
    | OriginLine(origin: string)
    | TtlLine(ttl: string)
    | IncludeLine(file: string)
    | Blank
    | Line(tokens: seq<Token>)

  datatype Step = Done | Next(raw: Raw, rest: string) | BadStep | StuckStep

  predicate RawOk(raw: Raw) {
    raw.Line? ==> RecordTokens(raw.tokens)
  }


  /** The next statement of a text. */
  function NextRaw(s: string): (r: Step)
    ensures r.Next? ==> |r.rest| < |s| && RawOk(r.raw)
  {
    match Lex(s)
    case End => Done
    case Raise => BadStep
    case Hang => StuckStep
    case Tok(t, rest) =>
      match t
      case Ttl =>
        (match Lex(rest)
         case Hang => StuckStep
         case Tok(v, more) => if v.Word? then Next(TtlLine(v.text), more) else BadStep
         case _ => BadStep)
      case Origin =>
        (match Lex(rest)
         case Hang => StuckStep
         case Tok(v, more) => if v.Word? then Next(OriginLine(v.text), more) else BadStep
         case _ => BadStep)
      case Include =>
        (match Lex(rest)
         case Hang => StuckStep
         case Tok(v, more) => if v.Str? then Next(IncludeLine(v.text), more) else BadStep
         case _ => BadStep)
      case Eol => Next(Blank, rest)
      case Comment => Next(Blank, rest)
      case _ =>
        match Collect(rest, false)
        case BadRecord => BadStep
        case Unending => StuckStep
        case Collected(ts, more) => Next(Line([t] + ts), more)
  }

  datatype Statement =
    | OriginStatement(origin: string)
    | IncludeStatement(file: string)
    | TtlStatement(ttl: nat)
    | RecordStatement(record: Record)
    | CommentStatement

  /** What a statement says in its context; None is the exception. */
  function Meaning(raw: Raw, ctx: Context, c: Checks): Option<Statement>
    requires RawOk(raw)
  {
    match raw
    case OriginLine(o) => if IsFqdn(o) then Some(OriginStatement(o)) else None
    case TtlLine(v) => if TtlOf(v).Some? then Some(TtlStatement(TtlOf(v).value)) else None
    case IncludeLine(f) => Some(IncludeStatement(f))
    case Blank => Some(CommentStatement)
    case Line(ts) => if Assemble(ts, ctx, c).Some? then Some(RecordStatement(Assemble(ts, ctx, c).value)) else None
  }

  // ---- Reading statements ----

  datatype TokensRead = AllTokens(tokens: seq<Token>) | Refused | Spinning

  /** The loop of parse_record. */
  method ReadTokens(f: Reader, first: Token) returns (r: TokensRead)
    requires f.Valid()
    modifies f
    ensures f.Valid()
    ensures match Collect(old(f.Pending()), false)
            case Collected(ts, rest) => r == AllTokens([first] + ts) && f.Pending() == rest
            case BadRecord => r == Refused
            case Unending => r == Spinning
  {
    var tokens := [first];
    var inBrackets := false;
    ghost var want := After([first], Collect(f.Pending(), false));
    while true
      invariant f.Valid() && want == After(tokens, Collect(f.Pending(), inBrackets))
      decreases |f.Pending()|
    {
      var read := ReadToken(f);
      if read.Threw? {
        return Refused;
      }
      if read.Stuck? {
        return Spinning;
      }
      if read.NoToken? || read.token.Eol? {
        if !inBrackets {
          assert tokens + [] == tokens;
          break;
        }
        if read.NoToken? {
          return Spinning;
        }
      } else if read.token.Close? {
        if inBrackets {
          inBrackets := false;
        } else {
          return Refused;
        }
      } else if read.token.Open? {
        if inBrackets {
          return Refused;
        } else {
          inBrackets := true;
        }
      } else if read.token.At? || read.token.Str? || read.token.Word? {
        AfterPreceded(tokens, read.token, Collect(f.Pending(), inBrackets));
        tokens := tokens + [read.token];
      } else if read.token.Comment? {
        if !inBrackets {
          assert tokens + [] == tokens;
          break;
        }
      } else {
        return Refused;
      }
    }
    r := AllTokens(tokens);
  }

  function After(ts: seq<Token>, g: Gathered): Gathered {
    if g.Collected? then Collected(ts + g.tokens, g.rest) else g
  }

  lemma AfterPreceded(ts: seq<Token>, t: Token, g: Gathered)
    ensures After(ts, Preceded(t, g)) == After(ts + [t], g)
  {
    if g.Collected? {
      assert ts + ([t] + g.tokens) == ts + [t] + g.tokens;
    }
  }

  datatype ReadResult = Read(statement: Statement) | NoMore | Fails | Loops

  /** parse_record. */
  method ParseRecord(f: Reader, first: Token, ctx: Context, c: Checks) returns (r: ReadResult)
    requires f.Valid()
    modifies f
    ensures f.Valid()
    ensures match Collect(old(f.Pending()), false)
            case Collected(ts, rest) =>
              f.Pending() == rest &&
              r == (match Meaning(Line([first] + ts), ctx, c) case Some(st) => Read(st) case None => Fails)
            case BadRecord => r == Fails
            case Unending => r == Loops
  {
    var tokens := ReadTokens(f, first);
    match tokens
    case Refused => r := Fails;
    case Spinning => r := Loops;
    case AllTokens(ts) =>
      var record := AssembleRecord(ts, ctx, c);
      if record.None? {
        r := Fails;
      } else {
        r := Read(RecordStatement(record.value));
      }
  }

  /** read. */
  method ReadStatement(f: Reader, ctx: Context, c: Checks) returns (r: ReadResult)
    requires f.Valid()
    modifies f
    ensures f.Valid()
    ensures match NextRaw(old(f.Pending()))
            case Done => r == NoMore
            case BadStep => r == Fails
            case StuckStep => r == Loops
            case Next(raw, rest) =>
              f.Pending() == rest &&
              r == (match Meaning(raw, ctx, c) case Some(st) => Read(st) case None => Fails)
  {
    var first := ReadToken(f);
    match first
    case NoToken => r := NoMore;
    case Threw => r := Fails;
    case Stuck => r := Loops;
    case Got(t) =>
      match t
      case Ttl =>
        var v := ReadToken(f);
        if v.Stuck? {
          r := Loops;
        } else if v.Got? && v.token.Word? {
          var ttl := TranslateTtl(v.token.text);
          r := if ttl.Some? then Read(TtlStatement(ttl.value)) else Fails;
        } else {
          r := Fails;
        }
      case Origin =>
        var v := ReadToken(f);
        if v.Stuck? {
          r := Loops;
        } else if v.Got? && v.token.Word? {
          var ok := ValidFqdn(v.token.text);
          r := if ok then Read(OriginStatement(v.token.text)) else Fails;
        } else {
          r := Fails;
        }
      case Include =>
        var v := ReadToken(f);
        if v.Stuck? {
          r := Loops;
        } else if v.Got? && v.token.Str? {
          r := Read(IncludeStatement(v.token.text));
        } else {
          r := Fails;
        }
      case Eol => r := Read(CommentStatement);
      case Comment => r := Read(CommentStatement);
      case _ => r := ParseRecord(f, t, ctx, c);
  }
}
