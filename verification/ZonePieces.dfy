/** The text of a printed record, piece by piece: its tokens as the dump script writes them,
    without escaping anything, and what is written between them. */
module ZonePieces {
  import opened Dns
  import opened Text
  import opened ZoneToken
  import opened LocText
  import opened ZoneRdata
  import opened ZoneStatement
  import opened ZoneLayout
  import opened ZoneExplicit
  import opened ZoneDump
  import opened ZoneRoundTrip
  import opened ZoneRestore

  lemma Reassociate<T>(a: seq<T>, b: seq<T>, c: seq<T>)
    ensures a + (b + c) == a + b + c
  {
  }

  // ---- Pieces as the script writes them ----

  /** A token as the script writes it: strings between quotes, nothing escaped. */
  function RawShow(t: Token): string {
    if t.Str? then Quote(t.text) else if t.Word? then t.text else "@"
  }

  function RawPiece(p: Piece): string {
    if p.Item? then RawShow(p.t) else if PieceOk(p) then ShowPiece(p) else ""
  }

  function RawAll(ps: Layout): string {
    if ps == [] then "" else RawPiece(ps[0]) + RawAll(ps[1..])
  }

  lemma {:induction false} RawConcat(a: Layout, b: Layout)
    ensures RawAll(a + b) == RawAll(a) + RawAll(b)
  {
    if a == [] {
      assert a + b == b;
    } else {
      assert (a + b)[1..] == a[1..] + b;
      RawConcat(a[1..], b);
      Reassociate(RawPiece(a[0]), RawAll(a[1..]), RawAll(b));
    }
  }

  lemma RawOne(p: Piece)
    ensures RawAll([p]) == RawPiece(p)
  {
    assert [p][1..] == [];
  }

  lemma RawTwo(t: Token, ps: Layout)
    ensures RawAll([Item(t), Gap(' ')] + ps) == RawShow(t) + " " + RawAll(ps)
  {
    var all := [Item(t), Gap(' ')] + ps;
    assert all[1..] == [Gap(' ')] + ps && all[1..][1..] == ps;
  }

  /** Every token with a space behind it. */
  function SpacedItems(ts: seq<Token>): Layout {
    if ts == [] then [] else [Item(ts[0]), Gap(' ')] + SpacedItems(ts[1..])
  }

  lemma SpreadFirst(w: string, ws: seq<string>)
    ensures Spread([w] + ws) == w + " " + Spread(ws)
  {
    SpreadConcat([w], ws);
    SpreadOne(w);
  }

  lemma SpacedFirst(t: Token, ts: seq<Token>)
    ensures SpacedItems([t] + ts) == [Item(t), Gap(' ')] + SpacedItems(ts)
  {
    assert ([t] + ts)[1..] == ts;
  }

  lemma WordsFirst(ws: seq<string>)
    requires ws != []
    ensures WordsOf(ws) == [TokenOf(ws[0])] + WordsOf(ws[1..]) && ws == [ws[0]] + ws[1..]
  {
  }

  lemma StringsFirst(ss: seq<string>)
    requires ss != []
    ensures StringsOf(ss) == [Str(ss[0])] + StringsOf(ss[1..])
    ensures QuoteAll(ss) == [Quote(ss[0])] + QuoteAll(ss[1..])
  {
  }

  lemma {:induction false} RawWords(ws: seq<string>)
    ensures RawAll(SpacedItems(WordsOf(ws))) == Spread(ws)
  {
    if ws != [] {
      RawWords(ws[1..]);
      WordsFirst(ws);
      SpacedFirst(TokenOf(ws[0]), WordsOf(ws[1..]));
      RawTwo(TokenOf(ws[0]), SpacedItems(WordsOf(ws[1..])));
      SpreadFirst(ws[0], ws[1..]);
    }
  }

  lemma {:induction false} RawStrings(ss: seq<string>)
    ensures RawAll(SpacedItems(StringsOf(ss))) == Spread(QuoteAll(ss))
  {
    if ss != [] {
      RawStrings(ss[1..]);
      StringsFirst(ss);
      SpacedFirst(Str(ss[0]), StringsOf(ss[1..]));
      RawTwo(Str(ss[0]), SpacedItems(StringsOf(ss[1..])));
      SpreadFirst(Quote(ss[0]), QuoteAll(ss[1..]));
    }
  }

  lemma {:induction false} JoinIsSpread(ws: seq<string>)
    requires ws != []
    ensures Join(ws, " ") + " " == Spread(ws)
  {
    if |ws| == 1 {
      assert ws == [ws[0]];
      SpreadOne(ws[0]);
    } else {
      JoinIsSpread(ws[1..]);
      SpreadFirst(ws[0], ws[1..]);
      assert ws == [ws[0]] + ws[1..];
    }
  }

  // ---- Fields ----

  /** Gateway and key of IPSECKEY data: the key has no space behind it, and a missing
      gateway leaves two in front of it. */
  function KeyTail(k: IpsecKey): Layout
    requires TypedKey(k)
  {
    if k.gatewayType == 0 then [Gap(' '), Item(TokenOf(k.publicKey))]
    else [Item(TokenOf(k.gateway.value)), Gap(' '), Item(TokenOf(k.publicKey))]
  }

  function KeyPieces(k: IpsecKey): Layout
    requires TypedKey(k)
  {
    SpacedItems(WordsOf([Signed(k.precedence), Signed(k.algorithm), Signed(k.gatewayType)])) + KeyTail(k)
  }

  function FieldPieces(name: string, ft: FieldType, data: Data): Layout
    requires TypedField(name, ft, data)
  {
    match ft
    case IpsecRest => KeyPieces(data[name].key)
    case BitmapRest => if data[name].ws == [] then [Gap(' ')] else SpacedItems(WordsOf(data[name].ws))
    case Base64Rest => if data[name].s == "" then [Gap(' ')] else SpacedItems([TokenOf(data[name].s)])
    case HexRest => if data[name].s == "" then [Gap(' ')] else SpacedItems([TokenOf(data[name].s)])
    case _ => SpacedItems(FieldTokens(name, ft, data))
  }

  lemma GlueKey(head: string, gateway: string, key: string)
    ensures head + (gateway + " " + key) == head + gateway + " " + key
  {
  }

  lemma SpreadThreeWords(a: string, b: string, c: string)
    ensures Spread([a, b, c]) == a + " " + b + " " + c + " "
  {
    SpreadOne(c);
    SpreadFirst(b, [c]);
    SpreadFirst(a, [b, c]);
    assert [b] + [c] == [b, c] && [a] + [b, c] == [a, b, c];
  }

  lemma RawKeyTail(k: IpsecKey)
    requires TypedKey(k)
    ensures RawAll(KeyTail(k)) == (if k.gatewayType == 0 then "" else k.gateway.value) + " " + k.publicKey
  {
    var key := [Item(TokenOf(k.publicKey))];
    RawOne(key[0]);
    if k.gatewayType == 0 {
      assert KeyTail(k)[1..] == key;
      assert "" + " " + k.publicKey == " " + k.publicKey;
    } else {
      assert KeyTail(k) == [Item(TokenOf(k.gateway.value)), Gap(' ')] + key;
      RawTwo(TokenOf(k.gateway.value), key);
    }
  }

  lemma RawKey(k: IpsecKey)
    requires TypedKey(k)
    ensures RawAll(KeyPieces(k)) == KeyText(k)
  {
    var a, b, c := Signed(k.precedence), Signed(k.algorithm), Signed(k.gatewayType);
    RawWords([a, b, c]);
    SpreadThreeWords(a, b, c);
    RawKeyTail(k);
    RawConcat(SpacedItems(WordsOf([a, b, c])), KeyTail(k));
    GlueKey(a + " " + b + " " + c + " ", if k.gatewayType == 0 then "" else k.gateway.value, k.publicKey);
  }

  lemma RawOneToken(t: Token)
    ensures RawAll(SpacedItems([t])) == RawShow(t) + " "
  {
    assert [t][1..] == [];
    RawTwo(t, []);
    assert SpacedItems([t]) == [Item(t), Gap(' ')] + [];
    assert RawShow(t) + " " + "" == RawShow(t) + " ";
  }

  /** The text of a field is its pieces one after the other. */
  lemma RawField(name: string, ft: FieldType, data: Data)
    requires TypedField(name, ft, data)
    ensures RawAll(FieldPieces(name, ft, data)) == FieldText(name, ft, data)
  {
    if ft.IpsecRest? {
      RawKey(data[name].key);
    } else if ft.BitmapRest? && data[name].ws != [] {
      RawWords(data[name].ws);
      JoinIsSpread(data[name].ws);
    } else if ft.BitmapRest? || (ft.Base64Rest? && data[name].s == "") || (ft.HexRest? && data[name].s == "") {
      RawOne(Gap(' '));
      assert "" + " " == " ";
    } else if ft.TxtRest? {
      RawStrings(data[name].ss);
    } else if ft.SvcRest? {
      RawWords(ParamWords(data[name].params));
    } else if ft.PolarRest? {
      RawWords(PolarWords(PolarIn(data)));
    } else {
      RawToken(name, ft, data);
    }
  }

  lemma RawToken(name: string, ft: FieldType, data: Data)
    requires TypedField(name, ft, data)
    requires !TakesRest(ft) || ((ft.Base64Rest? || ft.HexRest?) && data[name].s != "")
    ensures RawAll(FieldPieces(name, ft, data)) == FieldText(name, ft, data)
  {
    var t := FieldTokens(name, ft, data)[0];
    assert FieldTokens(name, ft, data) == [t];
    RawOneToken(t);
    if ft.NameField? {
      assert data[name].s + "." + " " == data[name].s + ". ";
    }
  }

  // ---- Records ----

  function FieldsPieces(fields: Fields, data: Data): Layout
    requires TypedFields(fields, data)
  {
    if fields == [] then [Break(None)]
    else FieldPieces(fields[0].0, fields[0].1, data) + FieldsPieces(fields[1..], data)
  }

  lemma FieldTextsTail(fields: Fields, data: Data)
    requires fields != [] && TypedFields(fields, data)
    ensures FieldTexts(fields, data)[0] == FieldText(fields[0].0, fields[0].1, data)
    ensures FieldTexts(fields, data)[1..] == FieldTexts(fields[1..], data)
  {
  }

  lemma {:induction false} RawFields(fields: Fields, data: Data)
    requires TypedFields(fields, data)
    ensures RawAll(FieldsPieces(fields, data)) == Flat(FieldTexts(fields, data)) + "\n"
    decreases |fields|
  {
    if fields == [] {
      RawOne(Break(None));
    } else {
      var (name, ft) := fields[0];
      RawField(name, ft, data);
      RawFields(fields[1..], data);
      RawConcat(FieldPieces(name, ft, data), FieldsPieces(fields[1..], data));
      FieldTextsTail(fields, data);
      Reassociate(FieldText(name, ft, data), Flat(FieldTexts(fields[1..], data)), "\n");
    }
  }

  function HeadTokens(rr: Stored): seq<Token> {
    [Word(rr.name + "."), Word(Decimal(rr.ttl)), Word("IN"), Word(rr.rtype)]
  }

  function RecordPieces(rr: Stored): Layout
    requires Typed(rr)
  {
    SpacedItems(HeadTokens(rr)) + FieldsPieces(FieldsOf(rr.rtype), rr.data)
  }

  lemma RawFour(a: Token, b: Token, c: Token, d: Token)
    ensures RawAll(SpacedItems([a, b, c, d])) ==
            RawShow(a) + " " + (RawShow(b) + " " + (RawShow(c) + " " + (RawShow(d) + " ")))
  {
    RawOneToken(d);
    RawTwo(c, SpacedItems([d]));
    RawTwo(b, SpacedItems([c, d]));
    RawTwo(a, SpacedItems([b, c, d]));
    assert [a, b, c, d][1..] == [b, c, d] && [b, c, d][1..] == [c, d] && [c, d][1..] == [d];
  }

  lemma RawHead(rr: Stored)
    ensures RawAll(SpacedItems(HeadTokens(rr))) == RecordHead(rr)
  {
    RawFour(Word(rr.name + "."), Word(Decimal(rr.ttl)), Word("IN"), Word(rr.rtype));
    GlueHead(rr.name, Decimal(rr.ttl), rr.rtype);
  }

  lemma GlueHead(a: string, b: string, c: string)
    ensures a + "." + " " + (b + " " + ("IN" + " " + (c + " "))) == a + ". " + b + " IN " + c + " "
  {
  }

  /** Whatever it holds, the text of a record is its pieces one after the other. */
  lemma RecordIsRaw(rr: Stored)
    requires Typed(rr)
    ensures RecordText(rr) == RawAll(RecordPieces(rr))
  {
    var fields := FieldsOf(rr.rtype);
    RawHead(rr);
    RawFields(fields, rr.data);
    RawConcat(SpacedItems(HeadTokens(rr)), FieldsPieces(fields, rr.data));
    Reassociate(RecordHead(rr), Flat(FieldTexts(fields, rr.data)), "\n");
  }

  // ---- The pieces as a layout ----

  lemma HeadAndTail<T>(ts: seq<T>)
    requires ts != []
    ensures [ts[0]] + ts[1..] == ts
  {
  }

  lemma {:induction false} LaidInFront(ts: seq<Token>, ps: Layout)
    requires AllLexable(ts) && WellLaid(ps, false)
    ensures WellLaid(SpacedItems(ts) + ps, false) && Items(SpacedItems(ts) + ps) == ts + Items(ps)
  {
    if ts == [] {
      assert SpacedItems(ts) + ps == ps;
    } else {
      var rest := SpacedItems(ts[1..]);
      LaidInFront(ts[1..], ps);
      ConsToken(ts[0], rest + ps, false);
      Reassociate([Item(ts[0]), Gap(' ')], rest, ps);
      Reassociate([ts[0]], ts[1..], Items(ps));
      HeadAndTail(ts);
    }
  }

  lemma TwoInFront<T>(a: T, b: T, ps: seq<T>)
    ensures [a, b] + ps == [a] + ([b] + ps)
  {
  }

  lemma ThreeInFront<T>(a: T, b: T, c: T, ps: seq<T>)
    ensures [a, b, c] + ps == [a, b] + ([c] + ps)
  {
  }

  lemma KeyParts(k: IpsecKey)
    requires TypedKey(k) && AllLexable(WordsOf(KeyWords(k)))
    ensures var head := WordsOf([Signed(k.precedence), Signed(k.algorithm), Signed(k.gatewayType)]);
            && AllLexable(head) && Lexable(TokenOf(k.publicKey))
            && (k.gatewayType == 0 ==> WordsOf(KeyWords(k)) == head + [TokenOf(k.publicKey)])
            && (k.gatewayType != 0 ==>
                  Lexable(TokenOf(k.gateway.value)) &&
                  WordsOf(KeyWords(k)) == head + [TokenOf(k.gateway.value), TokenOf(k.publicKey)])
  {
    var ws := WordsOf(KeyWords(k));
    var head := WordsOf([Signed(k.precedence), Signed(k.algorithm), Signed(k.gatewayType)]);
    assert ws[0] == head[0] && ws[1] == head[1] && ws[2] == head[2] && ws[|ws|-1] == TokenOf(k.publicKey);
    if k.gatewayType != 0 {
      assert ws[3] == TokenOf(k.gateway.value);
    }
  }

  lemma NoGatewayInFront(head: seq<Token>, key: Token, ps: Layout)
    requires AllLexable(head) && Lexable(key) && WellLaid(ps, false) && EndsWordBefore(ps[0])
    ensures var all := SpacedItems(head) + [Gap(' '), Item(key)] + ps;
            WellLaid(all, false) && Items(all) == head + [key] + Items(ps)
  {
    var inner := [Item(key)] + ps;
    Cons(Item(key), ps, false, false);
    Cons(Gap(' '), inner, false, false);
    LaidInFront(head, [Gap(' ')] + inner);
    TwoInFront(Gap(' '), Item(key), ps);
    Reassociate(SpacedItems(head), [Gap(' '), Item(key)], ps);
    Reassociate(head, [key], Items(ps));
  }

  lemma GatewayInFront(head: seq<Token>, gateway: Token, key: Token, ps: Layout)
    requires AllLexable(head) && Lexable(gateway) && Lexable(key) && WellLaid(ps, false) && EndsWordBefore(ps[0])
    ensures var all := SpacedItems(head) + [Item(gateway), Gap(' '), Item(key)] + ps;
            WellLaid(all, false) && Items(all) == head + [gateway, key] + Items(ps)
  {
    var inner := [Item(key)] + ps;
    Cons(Item(key), ps, false, false);
    ConsToken(gateway, inner, false);
    LaidInFront(head, [Item(gateway), Gap(' ')] + inner);
    ThreeInFront(Item(gateway), Gap(' '), Item(key), ps);
    TwoInFront(gateway, key, Items(ps));
    Reassociate(SpacedItems(head), [Item(gateway), Gap(' '), Item(key)], ps);
    Reassociate(head, [gateway, key], Items(ps));
  }

  lemma KeyInFront(k: IpsecKey, ps: Layout)
    requires TypedKey(k) && AllLexable(WordsOf(KeyWords(k)))
    requires WellLaid(ps, false) && EndsWordBefore(ps[0])
    ensures WellLaid(KeyPieces(k) + ps, false) && Items(KeyPieces(k) + ps) == WordsOf(KeyWords(k)) + Items(ps)
  {
    var head := WordsOf([Signed(k.precedence), Signed(k.algorithm), Signed(k.gatewayType)]);
    KeyParts(k);
    if k.gatewayType == 0 {
      NoGatewayInFront(head, TokenOf(k.publicKey), ps);
    } else {
      GatewayInFront(head, TokenOf(k.gateway.value), TokenOf(k.publicKey), ps);
    }
  }

  lemma FieldInFront(name: string, ft: FieldType, data: Data, ps: Layout)
    requires TypedField(name, ft, data) && AllLexable(FieldTokens(name, ft, data))
    requires WellLaid(ps, false) && (ft.IpsecRest? ==> EndsWordBefore(ps[0]))
    ensures WellLaid(FieldPieces(name, ft, data) + ps, false)
    ensures Items(FieldPieces(name, ft, data) + ps) == FieldTokens(name, ft, data) + Items(ps)
  {
    if ft.IpsecRest? {
      KeyInFront(data[name].key, ps);
    } else if FieldPieces(name, ft, data) == [Gap(' ')] {
      GapField(name, ft, data);
      Cons(Gap(' '), ps, false, false);
    } else {
      LaidInFront(FieldTokens(name, ft, data), ps);
    }
  }

  lemma GapField(name: string, ft: FieldType, data: Data)
    requires TypedField(name, ft, data) && !ft.IpsecRest? && FieldPieces(name, ft, data) == [Gap(' ')]
    ensures FieldTokens(name, ft, data) == []
  {
  }

  lemma LexableParts(a: seq<Token>, b: seq<Token>)
    requires AllLexable(a + b)
    ensures AllLexable(a) && AllLexable(b)
  {
    assert forall i :: 0 <= i < |a| ==> a[i] == (a + b)[i];
    assert forall i :: 0 <= i < |b| ==> b[i] == (a + b)[|a| + i];
  }

  lemma {:induction false} FieldsLaidOut(fields: Fields, data: Data)
    requires TypedFields(fields, data) && WellFormed(fields) && AllLexable(FieldsTokens(fields, data))
    ensures WellLaid(FieldsPieces(fields, data), false)
    ensures Items(FieldsPieces(fields, data)) == FieldsTokens(fields, data)
    decreases |fields|
  {
    if fields != [] {
      var (name, ft) := fields[0];
      LexableParts(FieldTokens(name, ft, data), FieldsTokens(fields[1..], data));
      FieldsLaidOut(fields[1..], data);
      FieldInFront(name, ft, data, FieldsPieces(fields[1..], data));
    }
  }

  lemma DumpTokensSplit(rr: Stored)
    requires Typed(rr)
    ensures DumpTokens(rr) == HeadTokens(rr) + FieldsTokens(FieldsOf(rr.rtype), rr.data)
  {
  }

  /** When the words of a record can be read at all, its text is a layout of its tokens,
      but for what should have been escaped. */
  lemma RecordIsLaidOut(rr: Stored)
    requires Typed(rr) && AllLexable(DumpTokens(rr))
    ensures Fits(RecordPieces(rr), Line(DumpTokens(rr)))
  {
    var fields := FieldsOf(rr.rtype);
    TableIsWellFormed(rr.rtype);
    DumpTokensSplit(rr);
    LexableParts(HeadTokens(rr), FieldsTokens(fields, rr.data));
    FieldsLaidOut(fields, rr.data);
    LaidInFront(HeadTokens(rr), FieldsPieces(fields, rr.data));
  }

  // ---- Only tokens, spaces and the line end ----

  predicate PlainPiece(p: Piece) {
    p.Item? || p == Gap(' ') || p == Break(None)
  }

  predicate Plain(ps: Layout) {
    forall i :: 0 <= i < |ps| ==> PlainPiece(ps[i])
  }

  lemma {:induction false} SpacedArePlain(ts: seq<Token>)
    ensures Plain(SpacedItems(ts))
  {
    if ts != [] {
      SpacedArePlain(ts[1..]);
    }
  }

  lemma FieldIsPlain(name: string, ft: FieldType, data: Data)
    requires TypedField(name, ft, data)
    ensures Plain(FieldPieces(name, ft, data))
  {
    SpacedArePlain(FieldTokens(name, ft, data));
    if ft.IpsecRest? {
      var k := data[name].key;
      SpacedArePlain(WordsOf([Signed(k.precedence), Signed(k.algorithm), Signed(k.gatewayType)]));
    }
  }

  lemma {:induction false} FieldsArePlain(fields: Fields, data: Data)
    requires TypedFields(fields, data)
    ensures Plain(FieldsPieces(fields, data))
    decreases |fields|
  {
    if fields != [] {
      FieldIsPlain(fields[0].0, fields[0].1, data);
      FieldsArePlain(fields[1..], data);
    }
  }

  lemma RecordIsPlain(rr: Stored)
    requires Typed(rr)
    ensures Plain(RecordPieces(rr))
  {
    SpacedArePlain(HeadTokens(rr));
    FieldsArePlain(FieldsOf(rr.rtype), rr.data);
  }
}
