/** Records the dump script cannot write so that they are read back, for each reason one,
    and a record that comes back from a text that says something else. */
module ZoneUnreadable {
  import opened Dns
  import opened Text
  import opened ZoneToken
  import opened ZoneUtil
  import opened ZoneRdata
  import opened ZoneStatement
  import opened ZoneParser
  import opened ZoneLayout
  import opened ZoneExplicit
  import opened ZoneDump
  import opened ZoneRoundTrip
  import opened ZoneRestore
  import opened ZonePieces
  import opened ZonePrinted

  // ---- Owners with an underscore in front ----

  lemma FirstStays(a: string, tail: string, c: char)
    requires a != "" && a[0] != c
    ensures Without(a + tail, c) != "" && Without(a + tail, c)[0] == a[0]
  {
    assert (a + tail)[0] == a[0];
  }

  lemma RecordStartsWith(rr: Stored)
    requires Typed(rr) && rr.name != ""
    ensures RecordText(rr) != "" && RecordText(rr)[0] == rr.name[0]
  {
  }

  /** The lexer refuses a word that starts with an underscore, so no text in which such a
      record is printed can be parsed, whatever comes behind it. */
  lemma UnderscoreIsRefused(rr: Stored, tail: string, ctx: Context, w: World, depth: nat)
    requires Typed(rr) && rr.name != "" && rr.name[0] == '_'
    ensures ParseText(Without(RecordText(rr) + tail, '\r'), ctx, w, depth) == Raised
  {
    RecordStartsWith(rr);
    FirstStays(RecordText(rr), tail, '\r');
    ParseStep(Without(RecordText(rr) + tail, '\r'), ctx, w, depth);
  }

  const SIP := Stored("_sip._tcp.example.com", 300, "SRV",
    map["priority" := Num(10), "weight" := Num(5), "port" := Num(5060), "target" := Chars("sip")])

  lemma SipIsTyped()
    ensures Typed(SIP)
  {
    var fs := FieldsOf("SRV");
    assert |fs| == 4;
    assert fs[0] == ("priority", Uint16) && fs[1] == ("weight", Uint16);
    assert fs[2] == ("port", Uint16) && fs[3] == ("target", NameField);
  }

  /** An ordinary service record: nothing in it is lost in printing, and the printed text is
      refused. */
  lemma ServiceRecordIsRefused(tail: string, ctx: Context, w: World, depth: nat)
    ensures Typed(SIP) && Restorable(SIP, w.checks)
    ensures ParseText(Without(RecordText(SIP) + tail, '\r'), ctx, w, depth) == Raised
  {
    SipIsTyped();
    SipIsRestorable(w.checks);
    UnderscoreIsRefused(SIP, tail, ctx, w, depth);
  }

  lemma SipTarget()
    ensures IsFqdn("sip.")
  {
    var s := "sip.";
    assert s[1..] == "ip." && s[1..][1..] == "p." && s[1..][1..][1..] == "." && s[1..][1..][1..][1..] == "";
    assert Split(".", '.') == ["", ""];
    assert |Split("p.", '.')| == 2 && |Split("ip.", '.')| == 2;
  }

  lemma SipIsRestorable(c: Checks)
    requires Typed(SIP)
    ensures Restorable(SIP, c)
  {
    SipTarget();
    assert "sip" + "." == "sip.";
    var fs, d := FieldsOf("SRV"), SIP.data;
    assert fs == [("priority", Uint16), ("weight", Uint16), ("port", Uint16), ("target", NameField)];
    assert d["priority"] == Num(10) && d["weight"] == Num(5) && d["port"] == Num(5060) && d["target"] == Chars("sip");
    assert AllSurvive(fs, d, c);
    assert |FieldTokens("priority", Uint16, d)| == 1;
  }

  // ---- Strings with quotes and backslashes ----

  /** A text record of one string. */
  function TxtOf(name: string, ttl: nat, s: string): (rr: Stored)
    ensures Typed(rr)
  {
    Stored(name, ttl, "TXT", map["txt" := Strings([s])])
  }

  lemma TxtTokens(name: string, ttl: nat, s: string)
    ensures DumpTokens(TxtOf(name, ttl, s)) == HeadTokens(TxtOf(name, ttl, s)) + [Str(s)]
    ensures RecordText(TxtOf(name, ttl, s)) ==
            RawAll(SpacedItems(HeadTokens(TxtOf(name, ttl, s)))) + (Quote(s) + " \n")
  {
    var rr := TxtOf(name, ttl, s);
    var fields := FieldsOf("TXT");
    assert fields == [("txt", TxtRest)] && fields[1..] == [];
    DumpTokensSplit(rr);
    assert StringsOf([s]) == [Str(s)] && [Str(s)] + [] == [Str(s)];
    assert FieldsTokens(fields, rr.data) == [Str(s)];
    assert FieldTexts(fields, rr.data) == [Spread(QuoteAll([s]))];
    assert QuoteAll([s]) == [Quote(s)];
    SpreadOne(Quote(s));
    FlatOne(Quote(s) + " ");
    RawHead(rr);
    GlueTxt(RecordHead(rr), Quote(s));
  }

  lemma GlueTxt(head: string, quoted: string)
    ensures head + (quoted + " ") + "\n" == head + (quoted + " \n")
  {
  }

  /** The two tokens a string with a quote in it falls apart into. */
  function SplitPieces(x: string, y: string): Layout {
    [Item(Str(x)), Item(Word(y + "\"")), Gap(' '), Break(None)]
  }

  lemma SplitText(x: string, y: string)
    requires NeedsNoEscape(x)
    ensures RawAll(SplitPieces(x, y)) == Quote(x + "\"" + y) + " \n"
  {
    var ps := SplitPieces(x, y);
    assert ps[1..] == [Item(Word(y + "\"")), Gap(' ')] + [Break(None)];
    RawTwo(Word(y + "\""), [Break(None)]);
    RawOne(Break(None));
    GlueSplit(x, y);
  }

  lemma GlueSplit(x: string, y: string)
    ensures "\"" + x + "\"" + (y + "\"" + " " + "\n") == "\"" + (x + "\"" + y) + "\"" + " \n"
  {
  }

  lemma SplitIsWellLaid(x: string, y: string)
    requires LexableWord(y + "\"")
    ensures WellLaid(SplitPieces(x, y), false) && Items(SplitPieces(x, y)) == [Str(x), Word(y + "\"")]
    ensures Plain(SplitPieces(x, y))
  {
    var ps, end := SplitPieces(x, y), [Break(None)];
    assert end[1..] == [];
    ConsToken(Word(y + "\""), end, false);
    Cons(Item(Str(x)), [Item(Word(y + "\"")), Gap(' ')] + end, false, false);
    assert ps == [Item(Str(x))] + ([Item(Word(y + "\"")), Gap(' ')] + end);
    assert [Str(x)] + ([Word(y + "\"")] + []) == [Str(x), Word(y + "\"")];
  }

  function SplitTokens(name: string, ttl: nat, x: string, y: string): seq<Token> {
    HeadTokens(TxtOf(name, ttl, x + "\"" + y)) + [Str(x), Word(y + "\"")]
  }

  lemma TxtIsAWord()
    ensures Lexable(Word("TXT"))
  {
    var w := "TXT";
    assert |w| == 3 && w[0] == 'T' && w[1] == 'X' && w[2] == 'T';
  }

  lemma HeadIsLexable(rr: Stored)
    requires rr.rtype == "TXT" && LexableWord(rr.name + ".")
    ensures AllLexable(HeadTokens(rr))
  {
    NumbersAreWords(rr.ttl);
    InIsAWord();
    TxtIsAWord();
  }

  lemma SplitRecord(name: string, ttl: nat, x: string, y: string, tail: string)
    requires LexableWord(name + ".") && NeedsNoEscape(x) && LexableWord(y + "\"")
    ensures NextRaw(RecordText(TxtOf(name, ttl, x + "\"" + y)) + tail) == Next(Line(SplitTokens(name, ttl, x, y)), tail)
  {
    var rr := TxtOf(name, ttl, x + "\"" + y);
    var head, more := SpacedItems(HeadTokens(rr)), SplitPieces(x, y);
    TxtTokens(name, ttl, x + "\"" + y);
    SplitText(x, y);
    RawConcat(head, more);
    SplitIsWellLaid(x, y);
    HeadIsLexable(rr);
    LaidInFront(HeadTokens(rr), more);
    SpacedArePlain(HeadTokens(rr));
    CollectRaw(head + more, tail);
    FirstIsOwner(rr, tail);
    LexFirst(RecordText(rr) + tail);
  }

  lemma SplitIsNoTxt(name: string, ttl: nat, x: string, y: string, ctx: Context, c: Checks)
    ensures RecordTokens(SplitTokens(name, ttl, x, y)) && Assemble(SplitTokens(name, ttl, x, y), ctx, c) == None
  {
    var ts := SplitTokens(name, ttl, x, y);
    NoSuchType(name + ".");
    NoSuchType(Decimal(ttl));
    NoSuchType("IN");
    FirstType(ts, 3);
    assert ts[4..] == [Str(x), Word(y + "\"")];
    assert !ts[4..][1].Str?;
    var fields := FieldsOf("TXT");
    assert fields[0] == ("txt", TxtRest);
  }

  lemma TxtIsRestorable(name: string, ttl: nat, s: string, c: Checks)
    ensures Restorable(TxtOf(name, ttl, s), c) <==> ttl <= MAX_TTL && |s| <= 255
  {
    var rr := TxtOf(name, ttl, s);
    var fields := FieldsOf("TXT");
    assert fields == [("txt", TxtRest)];
    assert rr.data["txt"] == Strings([s]);
    assert Survives("txt", TxtRest, rr.data, c) <==> |[s][0]| <= 255;
    assert FieldTokens("txt", TxtRest, rr.data)[0] == Str(s);
  }

  /** Nothing else need be wrong with a text record that has a quote in it, yet its printed
      text is refused: behind the quote the rest of the string reads as a word. */
  lemma QuoteIsRefused(name: string, ttl: nat, x: string, y: string, tail: string, ctx: Context, w: World, depth: nat)
    requires LexableWord(name + ".") && NeedsNoEscape(x) && LexableWord(y + "\"")
    ensures ParseText(RecordText(TxtOf(name, ttl, x + "\"" + y)) + tail, ctx, w, depth) == Raised
    ensures ttl <= MAX_TTL && |x| + |y| < 255 ==> Restorable(TxtOf(name, ttl, x + "\"" + y), w.checks)
  {
    SplitRecord(name, ttl, x, y, tail);
    SplitIsNoTxt(name, ttl, x, y, ctx, w.checks);
    ParseStep(RecordText(TxtOf(name, ttl, x + "\"" + y)) + tail, ctx, w, depth);
    TxtIsRestorable(name, ttl, x + "\"" + y, w.checks);
  }

  lemma {:induction false} ScanPlain(x: string, s: string)
    requires NeedsNoEscape(x)
    ensures StringFrom(x + s) == Before(x, StringFrom(s))
  {
    if x == "" {
      assert x + s == s;
      BeforeNothing(StringFrom(s));
    } else {
      assert (x + s)[0] == x[0] && (x + s)[1..] == x[1..] + s && x == [x[0]] + x[1..];
      ScanPlain(x[1..], s);
      BeforeTwice([x[0]], x[1..], StringFrom(s));
    }
  }

  lemma BeforeNothing(r: Scan)
    ensures Before("", r) == r
  {
    if r.Scanned? {
      assert "" + r.text == r.text;
    }
  }

  lemma BeforeTwice(a: string, b: string, r: Scan)
    ensures Before(a, Before(b, r)) == Before(a + b, r)
  {
    if r.Scanned? {
      assert a + (b + r.text) == a + b + r.text;
    }
  }

  /** A backslash before any character but a digit or a line end is lost without a word:
      the string that is read back is shorter. */
  lemma BackslashIsLost(x: string, c: char, y: string, tail: string)
    requires NeedsNoEscape(x) && NeedsNoEscape(y) && c != '\n' && !IsDigit(c)
    ensures Lex(Quote(x + ['\\', c] + y) + tail) == Tok(Str(x + [c] + y), tail)
  {
    var behind := y + "\"" + tail;
    var all := Quote(x + ['\\', c] + y) + tail;
    assert all[0] == '"' && all[1..] == x + (['\\', c] + behind);
    ScanPlain(x, ['\\', c] + behind);
    StringFromRaw(y, tail);
    assert (['\\', c] + behind)[2..] == behind;
    assert x + ([c] + y) == x + [c] + y;
  }

  // ---- A record back from other tokens ----

  /** An owner that reads like a record and a comment. */
  function Impostor(ttl: nat, address: string): (rr: Stored)
    ensures Typed(rr)
  {
    Stored(Decimal(ttl) + " IN A " + address + " ;", ttl, "A", map["ip4_addr" := Chars(address)])
  }

  lemma ImpostorText(ttl: nat, address: string)
    ensures var rr := Impostor(ttl, address);
            RecordText(rr) == Decimal(ttl) + " IN A " + address + " ;" + ("." + (" " + Decimal(ttl) + " IN A " + address + " ")) + "\n"
  {
    var rr := Impostor(ttl, address);
    var fields := FieldsOf("A");
    assert fields == [("ip4_addr", Ip4)];
    assert FieldTexts(fields, rr.data) == [address + " "];
    FlatOne(address + " ");
    GlueImpostor(rr.name, Decimal(ttl), address);
  }

  lemma GlueImpostor(name: string, ttl: string, address: string)
    ensures name + ". " + ttl + " IN " + "A" + " " + (address + " ") + "\n" ==
            name + ("." + (" " + ttl + " IN A " + address + " ")) + "\n"
  {
  }

  function Note(ttl: nat, address: string): string {
    "." + (" " + Decimal(ttl) + " IN A " + address + " ")
  }

  function ImpostorTokens(ttl: nat, address: string): seq<Token> {
    [Word(Decimal(ttl)), Word("IN"), Word("A"), Word(address)]
  }

  function ImpostorPieces(ttl: nat, address: string): Layout {
    SpacedItems(ImpostorTokens(ttl, address)) + [Break(Some(Note(ttl, address)))]
  }

  lemma {:induction false} RawIsShown(ps: Layout)
    requires AllOk(ps) && CleanStrings(Items(ps))
    ensures RawAll(ps) == ShowAll(ps)
  {
    if ps != [] {
      if ps[0].Item? {
        CleanCons(ps[0].t, Items(ps[1..]));
        if ps[0].t.Str? {
          NothingToEscape(ps[0].t.text);
        }
      } else {
        assert [] + Items(ps[1..]) == Items(ps[1..]);
      }
      RawIsShown(ps[1..]);
    }
  }

  lemma NoteIsOneLine(ttl: nat, address: string)
    requires LexableWord(address)
    ensures '\n' !in Note(ttl, address)
  {
    var d := Decimal(ttl);
    assert '\n' !in d && '\n' !in address && '\n' !in " IN A ";
  }

  lemma ImpostorIsLaidOut(ttl: nat, address: string)
    requires LexableWord(address)
    ensures WellLaid(ImpostorPieces(ttl, address), false) && Items(ImpostorPieces(ttl, address)) == ImpostorTokens(ttl, address)
  {
    var ts, end := ImpostorTokens(ttl, address), [Break(Some(Note(ttl, address)))];
    NoteIsOneLine(ttl, address);
    NumbersAreWords(ttl);
    InIsAWord();
    assert "A"[0] == 'A' && |"A"| == 1;
    assert end[1..] == [];
    LaidInFront(ts, end);
    assert Items(end) == [] && ts + [] == ts;
  }

  lemma ImpostorIsShown(ttl: nat, address: string)
    requires LexableWord(address)
    ensures RawAll(ImpostorPieces(ttl, address)) == RecordText(Impostor(ttl, address))
  {
    var ts, note := ImpostorTokens(ttl, address), Note(ttl, address);
    NoteIsOneLine(ttl, address);
    RawConcat(SpacedItems(ts), [Break(Some(note))]);
    RawOne(Break(Some(note)));
    RawFour(ts[0], ts[1], ts[2], ts[3]);
    ImpostorText(ttl, address);
    GlueComment(Decimal(ttl), address, note);
  }

  lemma GlueComment(ttl: string, address: string, note: string)
    ensures ttl + " " + ("IN" + " " + ("A" + " " + (address + " "))) + (";" + note + "\n") ==
            ttl + " IN A " + address + " ;" + note + "\n"
  {
  }

  lemma ImpostorIsRead(ttl: nat, address: string, tail: string)
    requires LexableWord(address)
    ensures NextRaw(RecordText(Impostor(ttl, address)) + tail) == Next(Line(ImpostorTokens(ttl, address)), tail)
  {
    var ps := ImpostorPieces(ttl, address);
    ImpostorIsLaidOut(ttl, address);
    WellLaidIsOk(ps, false);
    ImpostorIsShown(ttl, address);
    RawIsShown(ps);
    RecordIsReadBack(ps, tail);
  }

  lemma ImpostorLeft(ttl: nat, ctx: Context)
    requires ttl <= MAX_TTL && ctx.lastName.Some?
    ensures LeftOf([Word(Decimal(ttl)), Word("IN")], ctx) == Some(Left(ctx.lastName, Some(ttl)))
  {
    TtlOfPrinted(ttl);
  }

  lemma ImpostorData(ttl: nat, address: string, origin: Option<string>, c: Checks)
    requires c.ip4(address)
    ensures RdataOf("A", origin, [Word(address)], c) == Some(BackFields(FieldsOf("A"), Impostor(ttl, address).data))
  {
    var fields := FieldsOf("A");
    assert fields == [("ip4_addr", Ip4)] && fields[1..] == [];
    assert [Word(address)][1..] == [];
    assert DataOf(fields[1..], origin, [], c) == Some(map[]);
  }

  lemma ImpostorParts(ttl: nat, address: string)
    ensures var ts := ImpostorTokens(ttl, address);
            && RecordTokens(ts) && TypeIndex(ts) == 2
            && ts[..2] == [Word(Decimal(ttl)), Word("IN")] && ts[3..] == [Word(address)]
  {
    var ts := ImpostorTokens(ttl, address);
    NoSuchType(Decimal(ttl));
    NoSuchType("IN");
    assert FieldsOf("A") == [("ip4_addr", Ip4)];
    FirstType(ts, 2);
  }

  lemma ImpostorBack(ttl: nat, address: string, ctx: Context, c: Checks)
    requires ttl <= MAX_TTL && c.ip4(address) && ctx.lastName == Some(Impostor(ttl, address).name + ".")
    ensures RecordTokens(ImpostorTokens(ttl, address))
    ensures Assemble(ImpostorTokens(ttl, address), ctx, c) == Some(Back(Impostor(ttl, address)))
  {
    ImpostorParts(ttl, address);
    ImpostorLeft(ttl, ctx);
    ImpostorData(ttl, address, ctx.origin, c);
  }

  lemma BlankIsNoWord(w: string, i: nat)
    requires i < |w| && w[i] == ' '
    ensures !LexableWord(w)
  {
  }

  lemma ImpostorIsUnreadable(ttl: nat, address: string)
    ensures !Readable(DumpTokens(Impostor(ttl, address)))
  {
    var rr := Impostor(ttl, address);
    assert DumpTokens(rr)[0] == Word(rr.name + ".");
    BlankIsNoWord(rr.name + ".", |Decimal(ttl)|);
  }

  lemma LineStep(s: string, ts: seq<Token>, r: Record, tail: string, ctx: Context, w: World, depth: nat)
    requires NextRaw(s) == Next(Line(ts), tail) && RecordTokens(ts) && Assemble(ts, ctx, w.checks) == Some(r)
    ensures ParseText(s, ctx, w, depth) == GoOn(Some(r), tail, ctx, w, depth)
  {
    ParseStep(s, ctx, w, depth);
  }

  /** The converse for records alone fails: this record comes back as it was, from tokens
      that are not its own. Its owner reads like a record and a comment, and the record
      before it has the same owner. */
  lemma ComesBackFromOtherTokens(ttl: nat, address: string, tail: string, ctx: Context, w: World, depth: nat)
    requires ttl <= MAX_TTL && LexableWord(address) && w.checks.ip4(address)
    requires ctx.lastName == Some(Impostor(ttl, address).name + ".")
    ensures !Readable(DumpTokens(Impostor(ttl, address)))
    ensures ParseText(RecordText(Impostor(ttl, address)) + tail, ctx, w, depth) ==
            GoOn(Some(Back(Impostor(ttl, address))), tail, ctx, w, depth)
  {
    ImpostorIsUnreadable(ttl, address);
    ImpostorIsRead(ttl, address, tail);
    ImpostorBack(ttl, address, ctx, w.checks);
    LineStep(RecordText(Impostor(ttl, address)) + tail, ImpostorTokens(ttl, address), Back(Impostor(ttl, address)),
             tail, ctx, w, depth);
  }
}
