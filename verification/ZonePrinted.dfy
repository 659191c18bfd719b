/** Printing then parsing, on text: when the text the dump script writes is read back by the
    parser, record by record and as a whole zone. */
module ZonePrinted {
  import opened Dns
  import opened Text
  import opened ZoneToken
  import opened ZoneUtil
  import opened ZoneRdata
  import opened ZoneStatement
  import opened ZoneParser
  import opened ZoneLayout
  import opened ZoneExplicit
  import opened ZoneDump
  import opened ZoneRoundTrip
  import opened ZoneRestore
  import opened ZonePieces

  // ---- Strings that are not escaped ----

  predicate NeedsNoEscape(s: string) {
    '"' !in s && '\\' !in s
  }

  lemma {:induction false} NothingToEscape(s: string)
    requires NeedsNoEscape(s)
    ensures Escape(s) == s
  {
    if s != "" {
      NothingToEscape(s[1..]);
      assert s == [s[0]] + s[1..];
    }
  }

  function Backslashes(n: nat): (r: string)
    ensures |r| == n
  {
    if n == 0 then "" else "\\" + Backslashes(n - 1)
  }

  /** Scanning never catches up on a backslash: a string cannot be read with more of them
      in front than there are. */
  lemma {:induction false} NeverCatchesUp(s: string, tail: string, n: nat)
    requires n > 0
    ensures var r := StringFrom(s + "\"" + tail); !(r.Scanned? && r.text == Backslashes(n) + s)
    decreases |s|
  {
    var all, r := s + "\"" + tail, StringFrom(s + "\"" + tail);
    assert (Backslashes(n) + s)[0] == '\\';
    if |s| < 2 {
      assert all[|s|] == '"';
    } else {
      assert all[..2] == s[..2] && all[2..] == s[2..] + "\"" + tail;
      NeverCatchesUp(s[2..], tail, n + 1);
      if s[..2] == "\\\\" {
        MoreBackslashes(n);
        assert (Backslashes(n) + s)[1..] == Backslashes(n + 1) + s[2..];
      }
    }
  }

  lemma {:induction false} MoreBackslashes(n: nat)
    ensures Backslashes(n) + "\\" == Backslashes(n + 1) && Backslashes(n + 1)[1..] == Backslashes(n)
  {
    if n > 0 {
      MoreBackslashes(n - 1);
      assert "\\" + (Backslashes(n - 1) + "\\") == "\\" + Backslashes(n - 1) + "\\";
    }
  }

  /** What is written between quotes as it is comes back exactly when it holds neither a
      quote nor a backslash. */
  lemma {:induction false} StringFromRaw(s: string, tail: string)
    ensures var r := StringFrom(s + "\"" + tail);
            && (r.Scanned? && r.text == s <==> NeedsNoEscape(s))
            && (NeedsNoEscape(s) ==> r == Scanned(s, tail))
  {
    var all := s + "\"" + tail;
    if s == "" {
      assert all[1..] == tail;
    } else {
      assert all[0] == s[0] && all[1..] == s[1..] + "\"" + tail && s == [s[0]] + s[1..];
      StringFromRaw(s[1..], tail);
      if s[0] == '\\' {
        BackslashIsNotRead(s, tail);
      }
    }
  }

  lemma BackslashIsNotRead(s: string, tail: string)
    requires s != "" && s[0] == '\\'
    ensures var r := StringFrom(s + "\"" + tail); !(r.Scanned? && r.text == s)
  {
    assert s == Backslashes(0) + s;
    if |s| == 1 {
      assert (s + "\"" + tail)[1] == '"';
    } else {
      var all := s + "\"" + tail;
      assert all[..2] == s[..2] && all[2..] == s[2..] + "\"" + tail;
      NeverCatchesUp(s[2..], tail, 1);
      assert Backslashes(1) == "\\" + Backslashes(0);
      if s[1] == '\\' {
        assert s[1..] == Backslashes(1) + s[2..];
      }
    }
  }

  predicate CleanStrings(ts: seq<Token>) {
    forall i :: 0 <= i < |ts| && ts[i].Str? ==> NeedsNoEscape(ts[i].text)
  }

  // ---- Characters the reader skips ----

  lemma {:induction false} ScansKeepOut(s: string, c: char)
    requires c !in s
    ensures WordFrom(s).Scanned? ==> c !in WordFrom(s).text && c !in WordFrom(s).rest
    ensures LineFrom(s).Scanned? ==> c !in LineFrom(s).rest
    ensures StringFrom(s).Scanned? ==> c !in StringFrom(s).text && c !in StringFrom(s).rest
  {
    if s != "" {
      ScansKeepOut(s[1..], c);
      if |s| > 1 {
        ScansKeepOut(s[2..], c);
      }
    }
  }

  lemma {:induction false} SkipKeepsOut(s: string, c: char)
    requires c !in s
    ensures c !in SkipBlanks(s)
  {
    if s != "" && IsBlank(s[0]) {
      SkipKeepsOut(s[1..], c);
    }
  }

  /** A token without carriage returns, which the reader never hands on. */
  predicate Quiet(t: Token) {
    t.Word? || t.Str? ==> '\r' !in t.text
  }

  predicate AllQuiet(ts: seq<Token>) {
    forall i :: 0 <= i < |ts| ==> Quiet(ts[i])
  }

  lemma LexKeepsQuiet(s: string)
    requires '\r' !in s
    ensures Lex(s).Tok? ==> Quiet(Lex(s).token) && '\r' !in Lex(s).rest
  {
    var r := SkipBlanks(s);
    SkipKeepsOut(s, '\r');
    if r != "" {
      ScansKeepOut(r[1..], '\r');
    }
  }

  lemma {:induction false} CollectKeepsQuiet(s: string, inBrackets: bool)
    requires '\r' !in s
    ensures Collect(s, inBrackets).Collected? ==> AllQuiet(Collect(s, inBrackets).tokens)
    decreases |s|
  {
    LexKeepsQuiet(s);
    match Lex(s)
    case Tok(t, rest) =>
      CollectKeepsQuiet(rest, true);
      CollectKeepsQuiet(rest, false);
      var more := Collect(rest, inBrackets);
      if HasValue(t) && more.Collected? {
        assert Collect(s, inBrackets).tokens == [t] + more.tokens;
      }
    case _ =>
  }

  predicate QuietRaw(raw: Raw) {
    match raw
    case OriginLine(o) => '\r' !in o
    case TtlLine(v) => '\r' !in v
    case IncludeLine(f) => '\r' !in f
    case Blank => true
    case Line(ts) => AllQuiet(ts)
  }

  lemma NextRawIsQuiet(s: string)
    requires '\r' !in s
    ensures NextRaw(s).Next? ==> QuietRaw(NextRaw(s).raw)
  {
    LexKeepsQuiet(s);
    match Lex(s)
    case Tok(t, rest) =>
      LexKeepsQuiet(rest);
      CollectKeepsQuiet(rest, false);
    case _ =>
  }

  lemma {:induction false} QuietPieces(ps: Layout)
    requires Plain(ps) && AllQuiet(Items(ps))
    ensures '\r' !in RawAll(ps)
  {
    if ps != [] {
      assert Plain(ps[1..]);
      if ps[0].Item? {
        assert Items(ps)[0] == ps[0].t && Items(ps)[1..] == Items(ps[1..]);
      } else {
        assert [] + Items(ps[1..]) == Items(ps[1..]);
      }
      assert forall i :: 0 <= i < |Items(ps[1..])| ==> Quiet(Items(ps[1..])[i]);
      QuietPieces(ps[1..]);
      PieceIsQuiet(ps[0]);
    }
  }

  lemma PieceIsQuiet(p: Piece)
    requires PlainPiece(p) && (p.Item? ==> Quiet(p.t))
    ensures '\r' !in RawPiece(p)
  {
  }

  // ---- Reading a printed record ----

  /** Tokens whose printed form is read back: lexable words, strings free of quotes and
      backslashes, which the dump script does not escape, and no carriage returns. */
  predicate Readable(ts: seq<Token>) {
    AllLexable(ts) && CleanStrings(ts) && AllQuiet(ts)
  }

  lemma LexRawString(s: string, tail: string)
    ensures var r := Lex(Quote(s) + tail);
            && (r.Tok? && r.token == Str(s) <==> NeedsNoEscape(s))
            && (NeedsNoEscape(s) ==> r == Tok(Str(s), tail))
            && (r.Tok? ==> r.token.Str?)
  {
    var all := Quote(s) + tail;
    assert all[0] == '"' && all[1..] == s + "\"" + tail;
    StringFromRaw(s, tail);
  }

  lemma FirstOfRaw(p: Piece)
    requires PieceOk(p) && EndsWordBefore(p)
    ensures RawPiece(p) != "" && EndsWord(RawPiece(p)[0])
  {
  }

  /** Collecting behind a token that is no string. */
  lemma CollectRawItem(t: Token, tail: string)
    requires Lexable(t) && !t.Str? && (t.Word? ==> tail != "" && EndsWord(tail[0]))
    ensures Collect(RawShow(t) + tail, false) == Preceded(t, Collect(tail, false))
  {
    CollectItem(t, tail, false);
  }

  /** Collecting behind a string: it comes out as itself exactly when it needs no escape. */
  lemma CollectRawString(s: string, tail: string)
    ensures var g := Collect(Quote(s) + tail, false);
            && (NeedsNoEscape(s) ==> g == Preceded(Str(s), Collect(tail, false)))
            && (g.Collected? && g.tokens != [] && g.tokens[0] == Str(s) ==> NeedsNoEscape(s))
  {
    LexRawString(s, tail);
  }

  lemma SameTail(t: Token, ts: seq<Token>, g: Gathered)
    ensures Preceded(t, g).Collected? && Preceded(t, g).tokens == [t] + ts ==> g.Collected? && g.tokens == ts
  {
    if g.Collected? && [t] + g.tokens == [t] + ts {
      assert ([t] + g.tokens)[1..] == g.tokens && ([t] + ts)[1..] == ts;
    }
  }

  lemma CleanCons(t: Token, ts: seq<Token>)
    ensures CleanStrings([t] + ts) <==> (t.Str? ==> NeedsNoEscape(t.text)) && CleanStrings(ts)
  {
    var all := [t] + ts;
    assert all[0] == t && forall i :: 0 <= i < |ts| ==> ts[i] == all[i+1];
  }

  /** Pieces as they are written: their tokens are collected exactly when no string needs
      an escape, and collecting then stops behind them. */
  lemma {:induction false} CollectRaw(ps: Layout, tail: string)
    requires WellLaid(ps, false) && Plain(ps)
    ensures var g := Collect(RawAll(ps) + tail, false);
            && (g.Collected? && g.tokens == Items(ps) <==> CleanStrings(Items(ps)))
            && (CleanStrings(Items(ps)) ==> g == Collected(Items(ps), tail))
    decreases |ps|
  {
    var p, rest, more := ps[0], ps[1..], RawAll(ps[1..]) + tail;
    assert PlainPiece(p);
    Reassociate(RawPiece(p), RawAll(rest), tail);
    if p.Item? {
      CollectRaw(rest, tail);
      CleanCons(p.t, Items(rest));
      SameTail(p.t, Items(rest), Collect(more, false));
      if p.t.Str? {
        CollectRawString(p.t.text, more);
      } else {
        if p.t.Word? {
          FirstOfRaw(rest[0]);
        }
        CollectRawItem(p.t, more);
      }
    } else if p.Gap? {
      CollectRaw(rest, tail);
      CollectSkipsBlank(p.c, more, false);
      assert [] + Items(rest) == Items(rest);
    } else {
      LexBreak(None, more);
      assert rest == [] && "" + tail == tail;
      assert Items(ps) == [];
    }
  }

  /** A record text starts with its owner, which the lexer takes as a word if it can. */
  lemma FirstIsOwner(rr: Stored, tail: string)
    requires Typed(rr) && LexableWord(rr.name + ".")
    ensures Lex(RecordText(rr) + tail).Tok? && Lex(RecordText(rr) + tail).token == Word(rr.name + ".")
  {
    var owner := rr.name + ".";
    var more := RawAll(RecordPieces(rr)[1..]) + tail;
    RecordIsRaw(rr);
    assert RecordPieces(rr)[0] == Item(Word(owner)) && RecordPieces(rr)[1] == Gap(' ');
    Reassociate(owner, RawAll(RecordPieces(rr)[1..]), tail);
    assert more != "" && more[0] == ' ';
    LexWord(owner, more);
  }

  lemma LexableOwner(rr: Stored)
    requires Typed(rr) && AllLexable(DumpTokens(rr))
    ensures LexableWord(rr.name + ".")
  {
    assert DumpTokens(rr)[0] == Word(rr.name + ".");
  }

  /** A text without carriage returns: the tokens of a printed record with lexable words
      are read back exactly when no string needs an escape. */
  lemma LexableRecord(rr: Stored, tail: string)
    requires Typed(rr) && AllLexable(DumpTokens(rr))
    ensures var r, ts := NextRaw(RecordText(rr) + tail), DumpTokens(rr);
            && (r.Next? && r.raw == Line(ts) <==> CleanStrings(ts))
            && (CleanStrings(ts) ==> r == Next(Line(ts), tail))
  {
    RecordIsRaw(rr);
    RecordIsLaidOut(rr);
    RecordIsPlain(rr);
    CollectRaw(RecordPieces(rr), tail);
    LexableOwner(rr);
    FirstIsOwner(rr, tail);
    LexFirst(RecordText(rr) + tail);
  }

  lemma QuietRecord(rr: Stored)
    requires Typed(rr) && AllLexable(DumpTokens(rr)) && AllQuiet(DumpTokens(rr))
    ensures '\r' !in RecordText(rr)
  {
    RecordIsRaw(rr);
    RecordIsLaidOut(rr);
    RecordIsPlain(rr);
    QuietPieces(RecordPieces(rr));
  }

  lemma ReaderDrops(a: string, tail: string)
    requires '\r' !in a
    ensures Without(a + tail, '\r') == a + Without(tail, '\r')
  {
    WithoutConcat(a, tail, '\r');
    WithoutNothing(a, '\r');
  }

  /** Whatever a record holds and whatever follows it, its text is read back as its own
      tokens if and only if they are readable, and reading then goes on behind it. */
  lemma PrintedTokens(rr: Stored, tail: string)
    requires Typed(rr)
    ensures var r, ts := NextRaw(Without(RecordText(rr) + tail, '\r')), DumpTokens(rr);
            && (r.Next? && r.raw == Line(ts) <==> Readable(ts))
            && (Readable(ts) ==> r == Next(Line(ts), Without(tail, '\r')))
  {
    var s, ts := Without(RecordText(rr) + tail, '\r'), DumpTokens(rr);
    NextRawIsLexed(s);
    WithoutIsWithout(RecordText(rr) + tail, '\r');
    NextRawIsQuiet(s);
    OwnTokens(rr, NextRaw(s));
    if AllLexable(ts) && AllQuiet(ts) {
      QuietRecord(rr);
      ReaderDrops(RecordText(rr), tail);
      LexableRecord(rr, Without(tail, '\r'));
    }
  }

  lemma OwnTokens(rr: Stored, r: Step)
    requires Typed(rr) && (r.Next? ==> ZoneExplicit.Lexed(r.raw) && QuietRaw(r.raw))
    ensures r.Next? && r.raw == Line(DumpTokens(rr)) ==> AllLexable(DumpTokens(rr)) && AllQuiet(DumpTokens(rr))
  {
    DumpTokensHaveValues(rr);
  }

  lemma DumpTokensHaveValues(rr: Stored)
    requires Typed(rr)
    ensures AllHaveValues(DumpTokens(rr))
  {
    DumpTokensSplit(rr);
  }

  // ---- Records ----

  /** What the parser makes of a printed record: None when it refuses it. */
  function ReadBack(rr: Stored, ctx: Context, c: Checks): Option<Record>
    requires Typed(rr)
  {
    DumpTokensParts(rr);
    Assemble(DumpTokens(rr), ctx, c)
  }

  /** How the parser goes on behind a record, or a refused one. */
  function GoOn(r: Option<Record>, tail: string, ctx: Context, w: World, depth: nat): Result {
    match r
    case None => Raised
    case Some(record) => Following([record], ParseText(tail, AfterRecord(ctx, record), w, depth))
  }

  /** A printed record is read back as its own tokens and assembled to itself, with dots
      behind its names, if and only if it is readable and restorable. Readable records are
      parsed to what the tokens assemble to. */
  lemma PrintedRecord(rr: Stored, tail: string, ctx: Context, w: World, depth: nat)
    requires Typed(rr)
    ensures var s, s', ts := Without(RecordText(rr) + tail, '\r'), Without(tail, '\r'), DumpTokens(rr);
            && (Readable(ts) ==> ParseText(s, ctx, w, depth) == GoOn(ReadBack(rr, ctx, w.checks), s', ctx, w, depth))
            && (NextRaw(s) == Next(Line(ts), s') && ReadBack(rr, ctx, w.checks) == Some(Back(rr)) <==>
                Readable(ts) && Restorable(rr, w.checks))
  {
    PrintedTokens(rr, tail);
    RecordBack(rr, ctx, w.checks);
    ParseStep(Without(RecordText(rr) + tail, '\r'), ctx, w, depth);
  }

  function Backs(rrs: seq<Stored>): (r: seq<Record>)
    requires AllTyped(rrs)
    ensures |r| == |rrs| && forall i :: 0 <= i < |r| ==> r[i] == Back(rrs[i])
  {
    seq(|rrs|, i requires 0 <= i < |rrs| => Back(rrs[i]))
  }

  /** The statements the records are written as. */
  function LinesOf(rrs: seq<Stored>): (r: seq<Raw>)
    requires AllTyped(rrs)
    ensures |r| == |rrs| && forall i :: 0 <= i < |r| ==> r[i] == Line(DumpTokens(rrs[i]))
  {
    seq(|rrs|, i requires 0 <= i < |rrs| => Line(DumpTokens(rrs[i])))
  }

  predicate AllReadable(rrs: seq<Stored>)
    requires AllTyped(rrs)
  {
    forall i :: 0 <= i < |rrs| ==> Readable(DumpTokens(rrs[i]))
  }

  predicate AllRestorable(rrs: seq<Stored>, c: Checks)
    requires AllTyped(rrs)
  {
    forall i :: 0 <= i < |rrs| ==> Restorable(rrs[i], c)
  }

  lemma FollowingIs(r: Record, more: Result, back: Record, backs: seq<Record>)
    ensures Following([r], more) == Parsed([back] + backs) <==> r == back && more == Parsed(backs)
  {
    if more.Parsed? {
      assert ([r] + more.records)[0] == r && ([back] + backs)[0] == back;
      assert ([r] + more.records)[1..] == more.records && ([back] + backs)[1..] == backs;
    }
  }

  lemma FirstRecord(rrs: seq<Stored>)
    requires AllTyped(rrs) && rrs != []
    ensures Typed(rrs[0]) && AllTyped(rrs[1..])
    ensures Flat(RecordTexts(rrs)) == RecordText(rrs[0]) + Flat(RecordTexts(rrs[1..]))
    ensures Backs(rrs) == [Back(rrs[0])] + Backs(rrs[1..])
    ensures LinesOf(rrs) == [Line(DumpTokens(rrs[0]))] + LinesOf(rrs[1..])
  {
    assert RecordTexts(rrs)[1..] == RecordTexts(rrs[1..]);
  }

  lemma FirstReadable(rrs: seq<Stored>)
    requires AllTyped(rrs) && rrs != [] && AllTyped(rrs[1..])
    ensures AllReadable(rrs) <==> Readable(DumpTokens(rrs[0])) && AllReadable(rrs[1..])
  {
    assert forall i :: 0 <= i < |rrs[1..]| ==> rrs[1..][i] == rrs[i+1];
    assert forall i :: 1 <= i < |rrs| ==> rrs[i] == rrs[1..][i-1];
  }

  lemma FirstRestorable(rrs: seq<Stored>, c: Checks)
    requires AllTyped(rrs) && rrs != [] && AllTyped(rrs[1..])
    ensures AllRestorable(rrs, c) <==> Restorable(rrs[0], c) && AllRestorable(rrs[1..], c)
  {
    assert forall i :: 0 <= i < |rrs[1..]| ==> rrs[1..][i] == rrs[i+1];
    assert forall i :: 1 <= i < |rrs| ==> rrs[i] == rrs[1..][i-1];
  }

  /** The first statement of a text, and the others. */
  lemma StatementsAre(s: string, raw: Raw, raws: seq<Raw>)
    ensures StatementsOf(s) == Statements([raw] + raws, AtEnd) <==>
            NextRaw(s).Next? && NextRaw(s).raw == raw && StatementsOf(NextRaw(s).rest) == Statements(raws, AtEnd)
  {
    if NextRaw(s).Next? {
      var more := StatementsOf(NextRaw(s).rest);
      assert ([NextRaw(s).raw] + more.raws)[0] == NextRaw(s).raw && ([raw] + raws)[0] == raw;
      assert ([NextRaw(s).raw] + more.raws)[1..] == more.raws && ([raw] + raws)[1..] == raws;
    }
  }

  /** The text of printed records is read as one statement a record, each with its own
      tokens, if and only if all are readable. */
  lemma {:induction false} PrintedStatements(rrs: seq<Stored>)
    requires AllTyped(rrs)
    ensures StatementsOf(Without(Flat(RecordTexts(rrs)), '\r')) == Statements(LinesOf(rrs), AtEnd) <==> AllReadable(rrs)
    decreases |rrs|
  {
    if rrs == [] {
      assert Without("", '\r') == "" && NextRaw("") == Done;
    } else {
      FirstRecord(rrs);
      FirstReadable(rrs);
      PrintedTokens(rrs[0], Flat(RecordTexts(rrs[1..])));
      PrintedStatements(rrs[1..]);
      StatementsAre(Without(Flat(RecordTexts(rrs)), '\r'), Line(DumpTokens(rrs[0])), LinesOf(rrs[1..]));
    }
  }

  /** A first readable record, and the context it leaves for the others. */
  lemma FirstPrinted(rrs: seq<Stored>, ctx: Context, w: World, depth: nat) returns (ctx': Context)
    requires AllTyped(rrs) && rrs != [] && AllTyped(rrs[1..]) && Readable(DumpTokens(rrs[0]))
    ensures ParseText(Without(Flat(RecordTexts(rrs)), '\r'), ctx, w, depth) == Parsed(Backs(rrs)) <==>
            Restorable(rrs[0], w.checks) &&
            ParseText(Without(Flat(RecordTexts(rrs[1..])), '\r'), ctx', w, depth) == Parsed(Backs(rrs[1..]))
  {
    var tail, r := Flat(RecordTexts(rrs[1..])), ReadBack(rrs[0], ctx, w.checks);
    FirstRecord(rrs);
    PrintedRecord(rrs[0], tail, ctx, w, depth);
    RecordBack(rrs[0], ctx, w.checks);
    ctx' := if r.Some? then AfterRecord(ctx, r.value) else ctx;
    GoOnIs(r, Without(tail, '\r'), ctx, w, depth, Back(rrs[0]), Backs(rrs[1..]));
  }

  lemma GoOnIs(r: Option<Record>, tail: string, ctx: Context, w: World, depth: nat, back: Record, backs: seq<Record>)
    ensures GoOn(r, tail, ctx, w, depth) == Parsed([back] + backs) <==>
            r == Some(back) && ParseText(tail, AfterRecord(ctx, back), w, depth) == Parsed(backs)
  {
    if r.Some? {
      FollowingIs(r.value, ParseText(tail, AfterRecord(ctx, r.value), w, depth), back, backs);
    }
  }

  /** Readable records are parsed back, all of them and in order, exactly when all are
      restorable, whatever the context. */
  lemma {:induction false} PrintedRecords(rrs: seq<Stored>, ctx: Context, w: World, depth: nat)
    requires AllTyped(rrs) && AllReadable(rrs)
    ensures ParseText(Without(Flat(RecordTexts(rrs)), '\r'), ctx, w, depth) == Parsed(Backs(rrs)) <==>
            AllRestorable(rrs, w.checks)
    decreases |rrs|
  {
    if rrs == [] {
      ParseStep("", ctx, w, depth);
    } else {
      FirstRecord(rrs);
      FirstReadable(rrs);
      FirstRestorable(rrs, w.checks);
      var ctx' := FirstPrinted(rrs, ctx, w, depth);
      PrintedRecords(rrs[1..], ctx', w, depth);
    }
  }

  // ---- Whole zones ----

  lemma SkipThree(s: string)
    ensures Lex("   " + s) == Lex(s)
  {
    LexSkipsBlank(' ', s);
    LexSkipsBlank(' ', " " + s);
    LexSkipsBlank(' ', "  " + s);
    assert [' '] + s == " " + s && [' '] + (" " + s) == "  " + s && [' '] + ("  " + s) == "   " + s;
  }

  lemma DefaultTtlLine(tail: string)
    ensures NextRaw("$TTL    86400\n" + tail) == Next(TtlLine("86400"), "\n" + tail)
  {
    var end := "\n" + tail;
    var more := "   " + ("86400" + end);
    assert "$TTL    86400\n" + tail == "$" + "TTL" + " " + more;
    LexControl("TTL", more);
    SkipThree("86400" + end);
    LexWord("86400", end);
  }

  lemma ValueOfDefault()
    ensures AllDigits("86400") && ValueOf("86400") == 86400
  {
    var s := "86400";
    assert s[..4] == "8640" && "8640"[..3] == "864" && "864"[..2] == "86" && "86"[..1] == "8" && "8"[..0] == "";
    assert ValueOf("8") == 8;
    assert ValueOf("86") == 86;
    assert ValueOf("864") == 864;
    assert ValueOf("8640") == 8640;
  }

  lemma DefaultTtl()
    ensures TtlOf("86400") == Some(86400)
  {
    var s := "86400";
    ValueOfDefault();
    LowerOfDigits(s);
    AllLeadingDigits(s);
    assert s[..|s|] == s && s[|s|..] == "";
  }

  function OriginText(name: string): string {
    "$ORIGIN " + name + ".\n"
  }

  function NamedRaws(z: Zone): seq<Raw>
    requires TypedZone(z)
  {
    [OriginLine(z.name + ".")] + ([Blank] + LinesOf(ZoneRecords(z)))
  }

  /** The statements a zone is written as. */
  function ZoneRaws(z: Zone): seq<Raw>
    requires TypedZone(z)
  {
    [TtlLine("86400")] + ([Blank] + NamedRaws(z))
  }

  /** A zone whose name and records are readable. */
  predicate ZoneReadable(z: Zone)
    requires TypedZone(z)
  {
    LexableWord(z.name + ".") && '\r' !in z.name && AllReadable(ZoneRecords(z))
  }

  predicate ReadAsWritten(z: Zone)
    requires TypedZone(z)
  {
    StatementsOf(Without(ZoneText(z), '\r')) == Statements(ZoneRaws(z), AtEnd)
  }

  predicate ParsedBack(z: Zone, w: World, depth: nat)
    requires TypedZone(z)
  {
    ParseText(Without(ZoneText(z), '\r'), FreshContext(None, None), w, depth) == Parsed(Backs(ZoneRecords(z)))
  }

  lemma BlankFirst(s: string)
    ensures NextRaw("\n" + s) == Next(Blank, s)
  {
    LexBreak(None, s);
  }

  lemma StatementsBehindBlank(s: string, raws: seq<Raw>)
    ensures StatementsOf("\n" + s) == Statements([Blank] + raws, AtEnd) <==> StatementsOf(s) == Statements(raws, AtEnd)
  {
    BlankFirst(s);
    StatementsAre("\n" + s, Blank, raws);
  }

  lemma OriginTextIs(name: string, tail: string)
    ensures OriginText(name) + tail == "$ORIGIN " + (name + ".") + "\n" + tail
  {
  }

  lemma QuietOrigin(name: string)
    ensures '\r' !in name ==> '\r' !in OriginText(name)
  {
    assert '\r' !in "$ORIGIN " && '\r' !in ".\n";
  }

  lemma LastOf(a: string, b: string)
    ensures forall c :: c in a ==> c in a + b
  {
  }

  /** The line with the zone's name is read back exactly when the name is a word. */
  lemma PrintedOrigin(name: string, tail: string)
    ensures var r := NextRaw(Without(OriginText(name) + tail, '\r'));
            && (r.Next? && r.raw == OriginLine(name + ".") <==> LexableWord(name + ".") && '\r' !in name)
            && (LexableWord(name + ".") && '\r' !in name ==>
                  r == Next(OriginLine(name + "."), "\n" + Without(tail, '\r')))
  {
    var s := Without(OriginText(name) + tail, '\r');
    NextRawIsLexed(s);
    WithoutIsWithout(OriginText(name) + tail, '\r');
    NextRawIsQuiet(s);
    LastOf(name, ".");
    if LexableWord(name + ".") && '\r' !in name {
      QuietOrigin(name);
      ReaderDrops(OriginText(name), tail);
      OriginTextIs(name, Without(tail, '\r'));
      OriginIsReadBack(name + ".", Without(tail, '\r'));
    }
  }

  /** The zone's name and its records. */
  lemma NamedStatements(z: Zone)
    requires TypedZone(z)
    ensures var named := Without(OriginText(z.name) + Flat(RecordTexts(ZoneRecords(z))), '\r');
            StatementsOf(named) == Statements(NamedRaws(z), AtEnd) <==> ZoneReadable(z)
  {
    var records, lines := Flat(RecordTexts(ZoneRecords(z))), LinesOf(ZoneRecords(z));
    PrintedOrigin(z.name, records);
    StatementsAre(Without(OriginText(z.name) + records, '\r'), OriginLine(z.name + "."), [Blank] + lines);
    StatementsBehindBlank(Without(records, '\r'), lines);
    PrintedStatements(ZoneRecords(z));
  }

  lemma ZoneTextIs(z: Zone)
    requires TypedZone(z)
    ensures Without(ZoneText(z), '\r') ==
            "$TTL    86400\n" + Without(OriginText(z.name) + Flat(RecordTexts(ZoneRecords(z))), '\r')
  {
    ReaderDrops("$TTL    86400\n", OriginText(z.name) + Flat(RecordTexts(ZoneRecords(z))));
  }

  /** A dumped zone is read as the statements it was written as if and only if its name and
      all its records are readable. */
  lemma PrintedZoneStatements(z: Zone)
    requires TypedZone(z)
    ensures ReadAsWritten(z) <==> ZoneReadable(z)
  {
    var named := Without(OriginText(z.name) + Flat(RecordTexts(ZoneRecords(z))), '\r');
    ZoneTextIs(z);
    DefaultTtlLine(named);
    StatementsAre("$TTL    86400\n" + named, TtlLine("86400"), [Blank] + NamedRaws(z));
    StatementsBehindBlank(named, NamedRaws(z));
    NamedStatements(z);
  }

  lemma NamedPart(name: string, records: string, ctx: Context, w: World, depth: nat)
    requires LexableWord(name + ".") && '\r' !in name
    ensures ParseText(Without(OriginText(name) + records, '\r'), ctx, w, depth) ==
            if IsFqdn(name + ".") then ParseText(Without(records, '\r'), ctx.(origin := Some(name + ".")), w, depth)
            else Raised
  {
    var rest := Without(records, '\r');
    PrintedOrigin(name, records);
    BehindDirective(Without(OriginText(name) + records, '\r'), OriginLine(name + "."), rest, ctx, w, depth);
    FollowingNothing(ParseText(rest, ctx.(origin := Some(name + ".")), w, depth));
  }

  lemma TtlPart(rest: string, w: World, depth: nat)
    ensures ParseText("$TTL    86400\n" + rest, FreshContext(None, None), w, depth) ==
            ParseText(rest, FreshContext(None, Some(86400)), w, depth)
  {
    DefaultTtl();
    DefaultTtlLine(rest);
    BehindDirective("$TTL    86400\n" + rest, TtlLine("86400"), rest, FreshContext(None, None), w, depth);
    FollowingNothing(ParseText(rest, FreshContext(None, Some(86400)), w, depth));
  }

  /** What precedes the records leaves origin and default TTL. */
  lemma ZoneHead(z: Zone, w: World, depth: nat)
    requires TypedZone(z) && LexableWord(z.name + ".") && '\r' !in z.name
    ensures ParseText(Without(ZoneText(z), '\r'), FreshContext(None, None), w, depth) ==
            if IsFqdn(z.name + ".") then
              ParseText(Without(Flat(RecordTexts(ZoneRecords(z))), '\r'),
                        Context(Some(z.name + "."), Some(86400), None, None), w, depth)
            else Raised
  {
    ZoneTextIs(z);
    TtlPart(Without(OriginText(z.name) + Flat(RecordTexts(ZoneRecords(z))), '\r'), w, depth);
    NamedPart(z.name, Flat(RecordTexts(ZoneRecords(z))), FreshContext(None, Some(86400)), w, depth);
  }

  /** A readable zone is parsed back, record by record, with the dots the dump leaves out,
      exactly when its name is a domain name and all its records are restorable. */
  lemma ReadableZone(z: Zone, w: World, depth: nat)
    requires TypedZone(z) && ZoneReadable(z)
    ensures ParsedBack(z, w, depth) <==> IsFqdn(z.name + ".") && AllRestorable(ZoneRecords(z), w.checks)
  {
    ZoneHead(z, w, depth);
    PrintedRecords(ZoneRecords(z), Context(Some(z.name + "."), Some(86400), None, None), w, depth);
  }

  /** For every zone: the text the dump script writes is read as the statements it was
      written as, and parsed to the zone's records, if and only if the zone is readable, its
      name is a domain name and all its records are restorable. */
  lemma PrintedZone(z: Zone, w: World, depth: nat)
    requires TypedZone(z)
    ensures ReadAsWritten(z) && ParsedBack(z, w, depth) <==>
            ZoneReadable(z) && IsFqdn(z.name + ".") && AllRestorable(ZoneRecords(z), w.checks)
  {
    PrintedZoneStatements(z);
    if ZoneReadable(z) {
      ReadableZone(z, w, depth);
    }
  }
}
