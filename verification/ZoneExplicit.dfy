/** Normalising zone files: every record gets its resolved owner, its TTL and its class
    explicitly, in any layout, and the file still means the same. */
module ZoneExplicit {
  import opened Dns
  import opened Text
  import opened ZoneToken
  import opened ZoneUtil
  import opened ZoneRdata
  import opened ZoneStatement
  import opened ZoneParser
  import opened ZoneLayout

  predicate IsAbsolute(name: string) {
    name != "" && name[|name|-1] == '.'
  }

  /** A context whose names are absolute and whose TTLs fit 32 bits: every statement keeps
      it so, and a parse starts so unless its caller passes something else. */
  predicate Sound(ctx: Context) {
    && (ctx.origin.Some? ==> IsAbsolute(ctx.origin.value))
    && (ctx.lastName.Some? ==> IsAbsolute(ctx.lastName.value))
    && (ctx.ttl.Some? ==> ctx.ttl.value <= MAX_TTL)
    && (ctx.lastTtl.Some? ==> ctx.lastTtl.value <= MAX_TTL)
  }

  predicate SoundLeft(l: Left) {
    && (l.name.Some? ==> IsAbsolute(l.name.value))
    && (l.ttl.Some? ==> l.ttl.value <= MAX_TTL)
  }

  lemma NameIsAbsolute(origin: Option<string>, name: Option<string>)
    requires origin.Some? ==> IsAbsolute(origin.value)
    ensures NameOf(origin, name).Some? ==> IsAbsolute(NameOf(origin, name).value)
  {
  }

  lemma TwoLeftIsSound(l: string, r: string, ctx: Context)
    requires Sound(ctx)
    ensures TwoLeft(l, r, ctx).Some? ==> SoundLeft(TwoLeft(l, r, ctx).value)
  {
    NameIsAbsolute(ctx.origin, Some(l));
  }

  lemma LeftIsSound(left: seq<Token>, ctx: Context)
    requires Sound(ctx)
    ensures LeftOf(left, ctx).Some? ==> SoundLeft(LeftOf(left, ctx).value)
  {
    if |left| == 2 {
      if left[0].Word? && left[1].Value().Some? {
        TwoLeftIsSound(left[0].text, left[1].Value().value, ctx);
      }
    } else if |left| > 0 {
      NameIsAbsolute(ctx.origin, left[0].Value());
    }
  }

  lemma SoundIsKept(raw: Raw, ctx: Context, c: Checks)
    requires RawOk(raw) && Sound(ctx) && Meaning(raw, ctx, c).Some?
    ensures Sound(NextContext(Meaning(raw, ctx, c).value, ctx))
  {
    if raw.Line? {
      LeftIsSound(raw.tokens[..TypeIndex(raw.tokens)], ctx);
    }
  }

  // ---- Explicit records ----

  predicate IsResolved(r: Record) {
    r.name.Some? && r.ttl.Some?
  }

  /** The owner as a bare word where it can be one, and quoted otherwise. */
  function OwnerToken(name: string): Token {
    if LexableWord(name) then Word(name) else Str(name)
  }

  function ExplicitTokens(r: Record, ts: seq<Token>): seq<Token>
    requires IsResolved(r)
  {
    [OwnerToken(r.name.value), Word(Decimal(r.ttl.value)), Word("IN")] + ts[TypeIndex(ts)..]
  }

  function ExplicitRaw(raw: Raw, st: Statement): Raw {
    if raw.Line? && st.RecordStatement? && IsResolved(st.record) then Line(ExplicitTokens(st.record, raw.tokens)) else raw
  }

  /** All statements in explicit form, up to the first that is refused. */
  function Explicit(raws: seq<Raw>, ctx: Context, c: Checks): seq<Raw>
    requires RawsOk(raws)
  {
    if raws == [] || Meaning(raws[0], ctx, c).None? then raws
    else
      var st := Meaning(raws[0], ctx, c).value;
      [ExplicitRaw(raws[0], st)] + Explicit(raws[1..], NextContext(st, ctx), c)
  }

  lemma NoSuchType(s: string)
    requires s == "IN" || IsAbsolute(s) || (s != "" && IsDigit(s[0]))
    ensures !Supported(s)
  {
  }

  /** The type of explicit tokens is found where it was: behind owner, TTL and class. */
  lemma ExplicitTypeIndex(r: Record, ts: seq<Token>)
    requires IsResolved(r) && IsAbsolute(r.name.value) && TypeIndex(ts) < |ts|
    ensures TypeIndex(ExplicitTokens(r, ts)) == 3
  {
    var ets := ExplicitTokens(r, ts);
    NoSuchType(r.name.value);
    NoSuchType(Decimal(r.ttl.value));
    NoSuchType("IN");
    assert ets[3] == ts[TypeIndex(ts)];
    assert !IsType(ets[0]) && !IsType(ets[1]) && !IsType(ets[2]) && IsType(ets[3]);
    var i := TypeIndex(ets);
  }

  lemma ExplicitLeft(name: string, ttl: nat, ctx: Context)
    requires IsAbsolute(name) && ttl <= MAX_TTL
    ensures LeftOf([OwnerToken(name), Word(Decimal(ttl)), Word("IN")], ctx) == Some(Left(Some(name), Some(ttl)))
  {
    TtlOfPrinted(ttl);
    assert Decimal(ttl) != "IN" by {
      assert IsDigit(Decimal(ttl)[0]);
    }
  }

  lemma ExplicitParts(r: Record, ts: seq<Token>)
    requires IsResolved(r) && RecordTokens(ts) && TypeIndex(ts) < |ts|
    ensures var ets, i := ExplicitTokens(r, ts), TypeIndex(ts);
            && RecordTokens(ets) && |ets| == 3 + |ts| - i && ets[3] == ts[i] && ets[4..] == ts[i+1..]
            && ets[..3] == [OwnerToken(r.name.value), Word(Decimal(r.ttl.value)), Word("IN")]
  {
    var ets, i := ExplicitTokens(r, ts), TypeIndex(ts);
    forall k | 1 <= k < |ets|
      ensures HasValue(ets[k])
    {
      if k >= 3 {
        assert ets[k] == ts[i + (k - 3)];
      }
    }
  }

  /** The explicit form of a record assembles to the same record, whatever was left to fall
      back on. */
  lemma ExplicitRecord(ts: seq<Token>, ctx: Context, ctx': Context, c: Checks)
    requires RecordTokens(ts) && Sound(ctx) && ctx'.origin == ctx.origin
    requires Assemble(ts, ctx, c).Some? && IsResolved(Assemble(ts, ctx, c).value)
    ensures var ets := ExplicitTokens(Assemble(ts, ctx, c).value, ts);
            RecordTokens(ets) && Assemble(ets, ctx', c) == Assemble(ts, ctx, c)
  {
    var r, i := Assemble(ts, ctx, c).value, TypeIndex(ts);
    LeftIsSound(ts[..i], ctx);
    ExplicitParts(r, ts);
    ExplicitTypeIndex(r, ts);
    ExplicitLeft(r.name.value, r.ttl.value, ctx');
    assert Assemble(ExplicitTokens(r, ts), ctx', c) == RecordAt(ExplicitTokens(r, ts), 3, ctx', c);
  }

  lemma ExplicitMeaning(raw: Raw, ctx: Context, c: Checks)
    requires RawOk(raw) && Sound(ctx) && Meaning(raw, ctx, c).Some?
    ensures var raw' := ExplicitRaw(raw, Meaning(raw, ctx, c).value);
            RawOk(raw') && Meaning(raw', ctx, c) == Meaning(raw, ctx, c)
  {
    var st := Meaning(raw, ctx, c).value;
    if raw.Line? && IsResolved(st.record) {
      ExplicitRecord(raw.tokens, ctx, ctx, c);
    }
  }

  lemma {:induction false} ExplicitIsOk(raws: seq<Raw>, ctx: Context, c: Checks)
    requires RawsOk(raws) && Sound(ctx)
    ensures RawsOk(Explicit(raws, ctx, c))
    decreases |raws|
  {
    if raws != [] && Meaning(raws[0], ctx, c).Some? {
      var st := Meaning(raws[0], ctx, c).value;
      ExplicitMeaning(raws[0], ctx, c);
      SoundIsKept(raws[0], ctx, c);
      ExplicitIsOk(raws[1..], NextContext(st, ctx), c);
    }
  }

  lemma RunFirst(raw: Raw, more: seq<Raw>, more': seq<Raw>, raw': Raw, ending: Ending, ctx: Context, w: World, depth: nat)
    requires RawOk(raw) && RawOk(raw') && RawsOk(more) && RawsOk(more')
    requires Meaning(raw', ctx, w.checks) == Meaning(raw, ctx, w.checks)
    requires Meaning(raw, ctx, w.checks).Some? ==>
               var ctx' := NextContext(Meaning(raw, ctx, w.checks).value, ctx);
               Run(more', ending, ctx', w, depth) == Run(more, ending, ctx', w, depth)
    ensures Run([raw'] + more', ending, ctx, w, depth) == Run([raw] + more, ending, ctx, w, depth)
  {
    assert ([raw] + more)[1..] == more && ([raw'] + more')[1..] == more';
  }

  /** Making every record explicit changes nothing: the run produces the same records, or
      fails alike. */
  lemma {:induction false} ExplicitMeansTheSame(raws: seq<Raw>, ending: Ending, ctx: Context, w: World, depth: nat)
    requires RawsOk(raws) && Sound(ctx)
    ensures RawsOk(Explicit(raws, ctx, w.checks))
    ensures Run(Explicit(raws, ctx, w.checks), ending, ctx, w, depth) == Run(raws, ending, ctx, w, depth)
    decreases |raws|
  {
    ExplicitIsOk(raws, ctx, w.checks);
    if raws != [] && Meaning(raws[0], ctx, w.checks).Some? {
      var st := Meaning(raws[0], ctx, w.checks).value;
      ExplicitMeaning(raws[0], ctx, w.checks);
      SoundIsKept(raws[0], ctx, w.checks);
      var ctx' := NextContext(st, ctx);
      ExplicitMeansTheSame(raws[1..], ending, ctx', w, depth);
      RunFirst(raws[0], raws[1..], Explicit(raws[1..], ctx', w.checks), ExplicitRaw(raws[0], st), ending, ctx, w, depth);
      assert [raws[0]] + raws[1..] == raws;
    }
  }

  // ---- Which records can be made explicit ----

  /** The two tokens left of the type that leave the owner to the last record. */
  predicate ClassAndTtl(left: seq<Token>) {
    |left| == 2 && left[0].Word? && left[1].Value().Some? &&
    ((left[0].text == "IN" && TtlOf(left[1].Value().value).Some?) ||
     (TtlOf(left[0].text).Some? && left[1].Value() == Some("IN")))
  }

  predicate NameAndClass(left: seq<Token>) {
    |left| == 2 && left[0].Word? && left[0].text != "IN" && TtlOf(left[0].text).None? && left[1].Value() == Some("IN")
  }

  /** An accepted record lacks an owner exactly when more than three tokens precede its
      type, or just class and TTL do where there is neither a last owner nor an origin. */
  lemma OwnerIsMissing(left: seq<Token>, ctx: Context)
    requires LeftOf(left, ctx).Some?
    ensures LeftOf(left, ctx).value.name.None? <==>
            |left| > 3 || (ClassAndTtl(left) && ctx.lastName.None? && ctx.origin.None?)
  {
    InIsNoTtl();
  }

  /** An accepted record lacks a TTL exactly when there is no TTL to fall back on and it has
      just a name and a class, or more than three tokens before its type. */
  lemma TtlIsMissing(left: seq<Token>, ctx: Context)
    requires LeftOf(left, ctx).Some?
    ensures LeftOf(left, ctx).value.ttl.None? <==>
            (|left| > 3 || NameAndClass(left)) && ctx.lastTtl.None? && ctx.ttl.None?
  {
    InIsNoTtl();
  }

  /** The origin sign is refused as owner next to a TTL alone, in every context, though it
      is accepted when the class is given too. */
  lemma OriginSignNeedsClass(ttl: string, ctx: Context)
    ensures LeftOf([At, Word(ttl)], ctx).None?
    ensures LeftOf([At, Word(ttl), Word("IN")], ctx).Some? <==>
            ctx.origin.Some? && TtlOf(ttl).Some?
  {
    InIsNoTtl();
  }

  // ---- What the lexer found can be written ----

  predicate AllLexable(ts: seq<Token>) {
    forall i :: 0 <= i < |ts| ==> Lexable(ts[i])
  }

  lemma {:induction false} CollectedIsLexable(s: string, inBrackets: bool)
    ensures Collect(s, inBrackets).Collected? ==> AllLexable(Collect(s, inBrackets).tokens)
    decreases |s|
  {
    LexGivesLexable(s);
    match Lex(s)
    case Tok(t, rest) =>
      CollectedIsLexable(rest, true);
      CollectedIsLexable(rest, false);
      var more := Collect(rest, inBrackets);
      if HasValue(t) && more.Collected? {
        assert Collect(s, inBrackets).tokens == [t] + more.tokens;
      }
    case _ =>
  }

  /** Statements as the lexer finds them: only a bracket that opens a record cannot be
      written out again. */
  predicate Lexed(raw: Raw) {
    match raw
    case Line(ts) => ts != [] && forall i :: 0 <= i < |ts| ==> HasValue(ts[i]) || i > 0 ==> Lexable(ts[i])
    case _ => Writable(raw)
  }

  lemma NextRawIsLexed(s: string)
    ensures NextRaw(s).Next? ==> Lexed(NextRaw(s).raw)
  {
    LexGivesLexable(s);
    match Lex(s)
    case Tok(t, rest) =>
      LexGivesLexable(rest);
      CollectedIsLexable(rest, false);
    case _ =>
  }

  predicate AllLexed(raws: seq<Raw>) {
    forall i :: 0 <= i < |raws| ==> Lexed(raws[i])
  }

  lemma {:induction false} StatementsAreLexed(s: string)
    ensures AllLexed(StatementsOf(s).raws)
    decreases |s|
  {
    NextRawIsLexed(s);
    match NextRaw(s)
    case Next(raw, rest) => StatementsAreLexed(rest);
    case _ =>
  }

  /** Every statement is accepted, and every record has an owner and a TTL. */
  predicate AllResolved(raws: seq<Raw>, ctx: Context, c: Checks)
    requires RawsOk(raws)
  {
    raws == [] ||
    (Meaning(raws[0], ctx, c).Some? &&
     var st := Meaning(raws[0], ctx, c).value;
     (st.RecordStatement? ==> IsResolved(st.record)) && AllResolved(raws[1..], NextContext(st, ctx), c))
  }

  lemma NumbersAreWords(n: nat)
    ensures Lexable(Word(Decimal(n)))
  {
  }

  lemma InIsAWord()
    ensures Lexable(Word("IN"))
  {
    var w := "IN";
    assert |w| == 2 && w[0] == 'I' && w[1] == 'N';
  }

  lemma OneByOne<T>(a: T, b: T, c: T, rest: seq<T>)
    ensures [a, b, c] + rest == [a] + ([b] + ([c] + rest))
  {
  }

  lemma ConsLexable(t: Token, ts: seq<Token>)
    requires Lexable(t) && AllLexable(ts)
    ensures AllLexable([t] + ts)
  {
  }

  lemma TailIsLexable(ts: seq<Token>, i: nat)
    requires Lexed(Line(ts)) && i < |ts| && IsType(ts[i])
    ensures AllLexable(ts[i..])
  {
    forall k | 0 <= k < |ts[i..]|
      ensures Lexable(ts[i..][k])
    {
      assert Lexable(ts[i + k]);
    }
  }

  lemma ExplicitAreLexable(r: Record, ts: seq<Token>)
    requires IsResolved(r) && Lexed(Line(ts)) && TypeIndex(ts) < |ts|
    ensures AllLexable(ExplicitTokens(r, ts))
  {
    var owner, ttl, rest := OwnerToken(r.name.value), Word(Decimal(r.ttl.value)), ts[TypeIndex(ts)..];
    TailIsLexable(ts, TypeIndex(ts));
    InIsAWord();
    ConsLexable(Word("IN"), rest);
    NumbersAreWords(r.ttl.value);
    ConsLexable(ttl, [Word("IN")] + rest);
    ConsLexable(owner, [ttl] + ([Word("IN")] + rest));
    OneByOne(owner, ttl, Word("IN"), rest);
  }

  lemma ExplicitIsWritable(raw: Raw, ctx: Context, c: Checks)
    requires RawOk(raw) && Lexed(raw) && Sound(ctx) && Meaning(raw, ctx, c).Some?
    requires raw.Line? ==> IsResolved(Meaning(raw, ctx, c).value.record)
    ensures Writable(ExplicitRaw(raw, Meaning(raw, ctx, c).value))
  {
    if raw.Line? {
      ExplicitRecord(raw.tokens, ctx, ctx, c);
      ExplicitAreLexable(Meaning(raw, ctx, c).value.record, raw.tokens);
    }
  }

  lemma {:induction false} AllExplicitAreWritable(raws: seq<Raw>, ctx: Context, c: Checks)
    requires RawsOk(raws) && AllLexed(raws) && Sound(ctx) && AllResolved(raws, ctx, c)
    ensures AllWritable(Explicit(raws, ctx, c))
    decreases |raws|
  {
    if raws != [] {
      var st := Meaning(raws[0], ctx, c).value;
      SoundIsKept(raws[0], ctx, c);
      ExplicitIsWritable(raws[0], ctx, c);
      AllExplicitAreWritable(raws[1..], NextContext(st, ctx), c);
    }
  }

  /** Normalising a zone file preserves its meaning: a text whose records all resolve an
      owner and a TTL can be rewritten with every owner, TTL and class explicit, each record
      laid out over lines and comments as one likes, and parses to the same records. */
  lemma NormalisedMeansTheSame(s: string, layouts: seq<Layout>, ctx: Context, w: World, depth: nat)
    requires Sound(ctx) && StatementsOf(s).ending == AtEnd && AllResolved(StatementsOf(s).raws, ctx, w.checks)
    requires AllFit(layouts, Explicit(StatementsOf(s).raws, ctx, w.checks))
    ensures var explicit := Explicit(StatementsOf(s).raws, ctx, w.checks);
            && AllWritable(explicit)
            && ParseText(WriteAll(explicit, layouts), ctx, w, depth) == ParseText(s, ctx, w, depth)
  {
    var raws := StatementsOf(s).raws;
    StatementsAreLexed(s);
    AllExplicitAreWritable(raws, ctx, w.checks);
    WrittenMeansTheSame(Explicit(raws, ctx, w.checks), layouts, ctx, w, depth);
    ExplicitMeansTheSame(raws, AtEnd, ctx, w, depth);
  }

  // ---- Layouts there always are ----

  /** All tokens on one line. */
  function OneLine(ts: seq<Token>): Layout {
    if ts == [] then [Break(None)] else [Item(ts[0]), Gap(' ')] + OneLine(ts[1..])
  }

  /** The tokens inside brackets, each on a line of its own with a comment. */
  function Listed(ts: seq<Token>, note: string): Layout {
    if ts == [] then [CloseBracket, Break(None)]
    else [Gap('\t'), Item(ts[0]), Gap(' '), Break(Some(note))] + Listed(ts[1..], note)
  }

  /** The first token, and the others folded inside brackets. */
  function Folded(ts: seq<Token>, note: string): Layout
    requires ts != []
  {
    [Item(ts[0]), Gap(' '), OpenBracket, Break(Some(note))] + Listed(ts[1..], note)
  }

  /** Putting a piece in front of a layout. */
  lemma Cons(p: Piece, ps: Layout, before: bool, after: bool)
    requires PieceOk(p) && WellLaid(ps, after)
    requires match p
             case Item(t) => before == after && (t.Word? ==> EndsWordBefore(ps[0]))
             case Gap(_) => before == after
             case Break(_) => before && after
             case OpenBracket => !before && after
             case CloseBracket => before && !after
    ensures WellLaid([p] + ps, before)
    ensures Items([p] + ps) == if p.Item? then [p.t] + Items(ps) else Items(ps)
  {
    assert ([p] + ps)[1..] == ps;
    assert [] + Items(ps) == Items(ps);
  }

  lemma ConsToken(t: Token, ps: Layout, inBrackets: bool)
    requires Lexable(t) && WellLaid(ps, inBrackets)
    ensures WellLaid([Item(t), Gap(' ')] + ps, inBrackets)
    ensures Items([Item(t), Gap(' ')] + ps) == [t] + Items(ps)
  {
    Cons(Gap(' '), ps, inBrackets, inBrackets);
    Cons(Item(t), [Gap(' ')] + ps, inBrackets, inBrackets);
    assert [Item(t)] + ([Gap(' ')] + ps) == [Item(t), Gap(' ')] + ps;
  }

  lemma {:induction false} OneLineIsWellLaid(ts: seq<Token>)
    requires AllLexable(ts)
    ensures WellLaid(OneLine(ts), false) && Items(OneLine(ts)) == ts
  {
    if ts != [] {
      OneLineIsWellLaid(ts[1..]);
      ConsToken(ts[0], OneLine(ts[1..]), false);
    }
  }

  lemma FourInFront<T>(a: T, b: T, c: T, d: T, ps: seq<T>)
    ensures [a, b, c, d] + ps == [a] + ([b, c] + ([d] + ps))
    ensures [a, b, c, d] + ps == [a, b] + ([c] + ([d] + ps))
  {
  }

  lemma {:induction false} ListedIsWellLaid(ts: seq<Token>, note: string)
    requires '\n' !in note && AllLexable(ts)
    ensures WellLaid(Listed(ts, note), true) && Items(Listed(ts, note)) == ts
  {
    if ts == [] {
      Cons(CloseBracket, [Break(None)], true, false);
    } else {
      var more := Listed(ts[1..], note);
      ListedIsWellLaid(ts[1..], note);
      var broken := [Break(Some(note))] + more;
      Cons(Break(Some(note)), more, true, true);
      ConsToken(ts[0], broken, true);
      Cons(Gap('\t'), [Item(ts[0]), Gap(' ')] + broken, true, true);
      FourInFront(Gap('\t'), Item(ts[0]), Gap(' '), Break(Some(note)), more);
    }
  }

  /** Both the one line and the folded form are layouts of any writable record. */
  lemma LayoutsFit(ts: seq<Token>, note: string)
    requires Writable(Line(ts)) && '\n' !in note
    ensures Fits(OneLine(ts), Line(ts)) && Fits(Folded(ts, note), Line(ts))
  {
    OneLineIsWellLaid(ts);
    ListedIsWellLaid(ts[1..], note);
    var more := Listed(ts[1..], note);
    var inside := [OpenBracket] + ([Break(Some(note))] + more);
    Cons(Break(Some(note)), more, true, true);
    Cons(OpenBracket, [Break(Some(note))] + more, false, true);
    ConsToken(ts[0], inside, false);
    FourInFront(Item(ts[0]), Gap(' '), OpenBracket, Break(Some(note)), more);
    assert [ts[0]] + ts[1..] == ts;
  }
}
