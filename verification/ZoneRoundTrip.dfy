/** Printing then parsing, on tokens: exactly which stored records come back. */
module ZoneRoundTrip {
  import opened Dns
  import opened Text
  import opened ZoneToken
  import opened ZoneUtil
  import opened LocText
  import opened ZoneRdata
  import opened ZoneStatement
  import opened ZoneDump

  // ---- The tokens of a printed record ----

  /** The token a bare word is read as: an '@' alone is the origin sign. */
  function TokenOf(w: string): (t: Token)
    ensures HasValue(t) && ValueText(t) == w && !t.Str?
  {
    if w == "@" then At else Word(w)
  }

  function WordsOf(ws: seq<string>): (r: seq<Token>)
    ensures |r| == |ws| && forall i :: 0 <= i < |r| ==> r[i] == TokenOf(ws[i])
  {
    seq(|ws|, i requires 0 <= i < |ws| => TokenOf(ws[i]))
  }

  function StringsOf(ss: seq<string>): (r: seq<Token>)
    ensures |r| == |ss| && forall i :: 0 <= i < |r| ==> r[i] == Str(ss[i])
  {
    seq(|ss|, i requires 0 <= i < |ss| => Str(ss[i]))
  }

  /** The words dump_ipseckey prints: no gateway for type 0. */
  function KeyWords(k: IpsecKey): seq<string>
    requires TypedKey(k)
  {
    [Signed(k.precedence), Signed(k.algorithm), Signed(k.gatewayType)] +
    (if k.gatewayType == 0 then [] else [k.gateway.value]) + [k.publicKey]
  }

  function FieldTokens(name: string, ft: FieldType, data: Data): (r: seq<Token>)
    requires TypedField(name, ft, data)
    ensures AllHaveValues(r)
  {
    match ft
    case NameField => [Word(data[name].s + ".")]
    case Quoted => [Str(data[name].s)]
    case Uint16 => [Word(Signed(data[name].n))]
    case Uint32 => [Word(Signed(data[name].n))]
    case Int16 => [Word(Signed(data[name].n))]
    case Octet => [Word(Signed(data[name].n))]
    case TtlField => [Word(Signed(data[name].n))]
    case TxtRest => StringsOf(data[name].ss)
    case SvcRest => WordsOf(ParamWords(data[name].params))
    case PolarRest => WordsOf(PolarWords(PolarIn(data)))
    case IpsecRest => WordsOf(KeyWords(data[name].key))
    case BitmapRest => WordsOf(data[name].ws)
    case Base64Rest => if data[name].s == "" then [] else [TokenOf(data[name].s)]
    case HexRest => if data[name].s == "" then [] else [TokenOf(data[name].s)]
    case _ => [TokenOf(data[name].s)]
  }

  function FieldsTokens(fields: Fields, data: Data): (r: seq<Token>)
    requires TypedFields(fields, data)
    ensures AllHaveValues(r)
  {
    if fields == [] then []
    else FieldTokens(fields[0].0, fields[0].1, data) + FieldsTokens(fields[1..], data)
  }

  function DumpTokens(rr: Stored): seq<Token>
    requires Typed(rr)
  {
    [Word(rr.name + "."), Word(Decimal(rr.ttl)), Word("IN"), Word(rr.rtype)] + FieldsTokens(FieldsOf(rr.rtype), rr.data)
  }

  // ---- What comes back ----

  /** The parser's form of a stored field: names get their trailing dot. */
  function BackField(name: string, ft: FieldType, data: Data): Data
    requires TypedField(name, ft, data)
  {
    match ft
    case NameField => map[name := Chars(data[name].s + ".")]
    case PolarRest => PolarData(PolarIn(data))
    case _ => map[name := data[name]]
  }

  function BackFields(fields: Fields, data: Data): Data
    requires TypedFields(fields, data)
  {
    if fields == [] then map[]
    else BackField(fields[0].0, fields[0].1, data) + BackFields(fields[1..], data)
  }

  function Back(rr: Stored): Record
    requires Typed(rr)
  {
    Record(Some(rr.name + "."), Some(rr.ttl), rr.rtype, BackFields(FieldsOf(rr.rtype), rr.data))
  }

  /** The keys the dump script prints. */
  predicate Printable(k: string) {
    k == "mandatory" || k == "alpn" || k == NO_DEFAULT_ALPN || k == "port" || k == "ech"
  }

  predicate PlainItem(s: string) {
    ',' !in s && '"' !in s
  }

  predicate PlainList(d: map<string, Param>, key: string) {
    key in d ==> d[key].List? && |d[key].parts| > 0 && forall i :: 0 <= i < |d[key].parts| ==> PlainItem(d[key].parts[i])
  }

  /** Service parameters that survive: no address hints or unknown keys, no empty lists, no
      commas or quotes inside values. */
  predicate ParamsSurvive(d: map<string, Param>)
    requires TypedParams(d)
  {
    && (forall k :: k in d ==> Printable(k))
    && PlainList(d, "mandatory") && PlainList(d, "alpn")
    && ("ech" in d ==> '"' !in d["ech"].s)
  }

  /** The fields that come back as they were. */
  predicate Survives(name: string, ft: FieldType, data: Data, c: Checks)
    requires TypedField(name, ft, data)
  {
    match ft
    case NameField => IsFqdn(data[name].s + ".")
    case Uint16 => 0 <= data[name].n <= 65536
    case Uint32 => 0 <= data[name].n <= 0x1_0000_0000 - 1
    case Int16 => -32768 <= data[name].n <= 32767
    case Octet => 0 <= data[name].n <= 255
    case TtlField => 0 <= data[name].n <= MAX_TTL
    case Ip4 => c.ip4(data[name].s)
    case Ip6 => c.ip6(data[name].s)
    case LowerAlnum => IsLowerAlnum(data[name].s)
    case Eui48 => ValidEui(data[name].s, 6)
    case Eui64 => ValidEui(data[name].s, 8)
    case Base64Rest => c.base64(data[name].s)
    case HexRest => ValidHex(data[name].s)
    case BitmapRest => AllTypes(data[name].ws)
    case TxtRest => forall i :: 0 <= i < |data[name].ss| ==> |data[name].ss[i]| <= 255
    case SvcRest => ParamsSurvive(data[name].params)
    case IpsecRest => data[name].key.gatewayType != 0 && c.base64(data[name].key.publicKey)
    case PolarRest =>
      WholeMetres(data["size"].n) && WholeMetres(data["horizontal_precision"].n) && WholeMetres(data["vertical_precision"].n)
    case _ => true
  }

  predicate AllSurvive(fields: Fields, data: Data, c: Checks)
    requires TypedFields(fields, data)
  {
    forall i :: 0 <= i < |fields| ==> Survives(fields[i].0, fields[i].1, data, c)
  }

  /** The records that come back: the TTL fits 32 bits, every field survives, and some field
      prints a token at all. */
  predicate Restorable(rr: Stored, c: Checks)
    requires Typed(rr)
  {
    && rr.ttl <= MAX_TTL
    && AllSurvive(FieldsOf(rr.rtype), rr.data, c)
    && FieldsTokens(FieldsOf(rr.rtype), rr.data) != []
  }

  // ---- Fields of one token ----

  lemma TtlBack(n: int)
    ensures TtlOf(Signed(n)) == if 0 <= n <= MAX_TTL then Some(n) else None
  {
    if n >= 0 {
      TtlOfPrinted(n);
    } else {
      assert Signed(n)[0] == '-';
      assert Lower(Signed(n))[0] == '-';
    }
  }

  lemma IntBack(n: int, origin: Option<string>, ft: FieldType, c: Checks)
    requires ft.Uint16? || ft.Uint32? || ft.Int16? || ft.Octet?
    ensures var ok := match ft
                      case Uint16 => 0 <= n <= 65536
                      case Uint32 => 0 <= n <= 0x1_0000_0000 - 1
                      case Int16 => -32768 <= n <= 32767
                      case _ => 0 <= n <= 255;
            FieldValue(origin, ft, Word(Signed(n)), c) == if ok then Some(Num(n)) else None
  {
    IntOfPrinted(n);
  }

  /** A field of one token comes back as it was exactly when it survives, and is refused
      otherwise ... */
  ghost predicate TokenComesBack(name: string, ft: FieldType, data: Data, origin: Option<string>, c: Checks)
    requires !TakesRest(ft) && TypedField(name, ft, data)
  {
    && |FieldTokens(name, ft, data)| == 1 && name in BackField(name, ft, data)
    && FieldValue(origin, ft, FieldTokens(name, ft, data)[0], c) ==
       if Survives(name, ft, data, c) then Some(BackField(name, ft, data)[name]) else None
  }

  lemma NumberBack(name: string, ft: FieldType, data: Data, origin: Option<string>, c: Checks)
    requires ft.Uint16? || ft.Uint32? || ft.Int16? || ft.Octet?
    requires TypedField(name, ft, data)
    ensures TokenComesBack(name, ft, data, origin, c)
  {
    IntBack(data[name].n, origin, ft, c);
  }

  lemma TtlFieldBack(name: string, data: Data, origin: Option<string>, c: Checks)
    requires TypedField(name, TtlField, data)
    ensures TokenComesBack(name, TtlField, data, origin, c)
  {
    TtlBack(data[name].n);
  }

  lemma NameFieldBack(name: string, data: Data, origin: Option<string>, c: Checks)
    requires TypedField(name, NameField, data)
    ensures TokenComesBack(name, NameField, data, origin, c)
  {
    var s := data[name].s + ".";
    assert s[|s|-1] == '.' && FormName(origin, s) == Some(s);
  }

  lemma TextBack(name: string, ft: FieldType, data: Data, origin: Option<string>, c: Checks)
    requires ft.Quoted? || ft.Ip4? || ft.Ip6? || ft.AnyText? || ft.LowerAlnum? || ft.Eui48? || ft.Eui64?
    requires TypedField(name, ft, data)
    ensures TokenComesBack(name, ft, data, origin, c)
  {
  }

  /** ... which every field of one token does. */
  lemma TokenBack(name: string, ft: FieldType, data: Data, origin: Option<string>, c: Checks)
    requires !TakesRest(ft) && TypedField(name, ft, data)
    ensures TokenComesBack(name, ft, data, origin, c)
    ensures BackField(name, ft, data) == map[name := BackField(name, ft, data)[name]]
  {
    if ft.TtlField? {
      TtlFieldBack(name, data, origin, c);
    } else if ft.NameField? {
      NameFieldBack(name, data, origin, c);
    } else if ft.Uint16? || ft.Uint32? || ft.Int16? || ft.Octet? {
      NumberBack(name, ft, data, origin, c);
    } else {
      TextBack(name, ft, data, origin, c);
    }
    BackIsOne(name, ft, data);
  }

  lemma BackIsOne(name: string, ft: FieldType, data: Data)
    requires !TakesRest(ft) && TypedField(name, ft, data)
    ensures name in BackField(name, ft, data)
    ensures BackField(name, ft, data) == map[name := BackField(name, ft, data)[name]]
  {
  }

  // ---- Fields that take the rest ----

  lemma TextsOfWords(ws: seq<string>)
    ensures Texts(WordsOf(ws)) == ws && Texts(StringsOf(ws)) == ws
  {
  }

  lemma ConcatOne(s: string)
    ensures Concat([s]) == s
  {
    assert [s][..0] == [];
    assert "" + s == s;
  }

  lemma PolarBack(data: Data, c: Checks)
    requires TypedField("", PolarRest, data)
    ensures RestData("", PolarRest, WordsOf(PolarWords(PolarIn(data))), c) == Some(PolarData(PolarIn(data))) <==>
            Survives("", PolarRest, data, c)
  {
    var p := PolarIn(data);
    TextsOfWords(PolarWords(p));
    PolarRoundTrip(p);
    var r := PolarOf(PolarWords(p));
    if r.Some? && PolarData(r.value) == PolarData(p) {
      PolarDataIsFaithful(r.value, p);
    }
  }

  lemma PolarDataIsFaithful(p: Polar, q: Polar)
    requires PolarData(p) == PolarData(q)
    ensures p == q
  {
    var d := PolarData(p);
    assert d["size"] == Num(q.size) && d["horizontal_precision"] == Num(q.horizontal);
    assert d["vertical_precision"] == Num(q.vertical) && d["latitude"] == Num(q.latitude);
    assert d["longitude"] == Num(q.longitude) && d["altitude"] == Num(q.altitude);
  }

  /** An IPSECKEY comes back exactly when it has a gateway: without one the printed form is
      a token short. */
  lemma KeyBack(k: IpsecKey, c: Checks)
    requires TypedKey(k)
    ensures KeyOf(KeyWords(k), c) == Some(k) <==> k.gatewayType != 0 && c.base64(k.publicKey)
  {
    var ws := KeyWords(k);
    if k.gatewayType != 0 {
      IntOfPrinted(k.precedence);
      IntOfPrinted(k.algorithm);
      IntOfPrinted(k.gatewayType);
      assert ws[4..] == [k.publicKey];
      ConcatOne(k.publicKey);
    }
  }

  // ---- Service parameters ----

  /** What a list comes back as: quotes gone, and split at every comma. */
  function BackList(parts: seq<string>): seq<string> {
    Split(Without(Join(parts, ","), '"'), ',')
  }

  lemma {:induction false} SplitHasNoSeparator(s: string, sep: char)
    ensures forall i :: 0 <= i < |Split(s, sep)| ==> sep !in Split(s, sep)[i]
    ensures forall i, c :: 0 <= i < |Split(s, sep)| && c in Split(s, sep)[i] ==> c in s
  {
    if s != "" {
      SplitHasNoSeparator(s[1..], sep);
      assert s == [s[0]] + s[1..];
    }
  }

  lemma {:induction false} WithoutIsWithout(s: string, c: char)
    ensures c !in Without(s, c)
  {
    if s != "" {
      WithoutIsWithout(s[1..], c);
    }
  }

  lemma {:induction false} JoinKeepsOut(parts: seq<string>, c: char)
    requires c != ',' && forall i :: 0 <= i < |parts| ==> c !in parts[i]
    ensures c !in Join(parts, ",")
  {
    if |parts| > 1 {
      JoinKeepsOut(parts[1..], c);
    }
  }

  lemma {:induction false} WithoutQuotes(parts: seq<string>)
    ensures Without(Join(QuoteAll(parts), ","), '"') == Without(Join(parts, ","), '"')
  {
    var qs := QuoteAll(parts);
    if parts != [] {
      var p := parts[0];
      assert Quote(p) == "\"" + p + "\"";
      WithoutConcat("\"" + p, "\"", '"');
      WithoutConcat("\"", p, '"');
      if |parts| > 1 {
        assert qs[1..] == QuoteAll(parts[1..]);
        WithoutQuotes(parts[1..]);
        WithoutConcat(qs[0] + ",", Join(qs[1..], ","), '"');
        WithoutConcat(qs[0], ",", '"');
        WithoutConcat(p + ",", Join(parts[1..], ","), '"');
        WithoutConcat(p, ",", '"');
      }
    }
  }

  /** A list that is printed comes back exactly when its items are plain. */
  lemma ListBack(parts: seq<string>)
    requires parts != []
    ensures BackList(parts) == parts <==> forall i :: 0 <= i < |parts| ==> PlainItem(parts[i])
  {
    var joined := Join(parts, ",");
    var bare := Without(joined, '"');
    if forall i :: 0 <= i < |parts| ==> PlainItem(parts[i]) {
      JoinKeepsOut(parts, '"');
      WithoutNothing(joined, '"');
      SplitJoin(parts, ',');
    }
    if BackList(parts) == parts {
      SplitHasNoSeparator(bare, ',');
      WithoutIsWithout(joined, '"');
    }
  }

  lemma {:induction false} FindAfter(key: string, v: string)
    requires '=' !in key
    ensures Find(key + "=" + v, '=') == |key|
  {
    var w := key + "=" + v;
    if key != "" {
      assert w[1..] == key[1..] + "=" + v && w[0] == key[0];
      FindAfter(key[1..], v);
    }
  }

  lemma FlagHasNoValue()
    ensures '=' !in NO_DEFAULT_ALPN
  {
  }

  /** A printed parameter as the parser takes it. */
  lemma ParamBack(key: string, v: string)
    requires '=' !in key
    ensures ParamOf(key + "=" + v) == NamedParam(key, Without(v, '"'))
  {
    var w := key + "=" + v;
    FindAfter(key, v);
    FlagHasNoValue();
    assert w[..|key|] == key && w[|key|+1..] == v;
    assert w[|key|] == '=';
  }

  // ---- Collecting the parameters ----

  lemma MapAppend<K, V>(m: map<K, V>, n: map<K, V>, k: K, v: V)
    ensures m + n[k := v] == (m + n)[k := v]
    ensures m + map[] == m
  {
  }

  lemma ParamsAppend(ws: seq<string>, w: string)
    requires ParamsOf(ws).Some? && ParamOf(w).Some?
    ensures ParamsOf(ws + [w]) == Some(ParamsOf(ws).value[ParamOf(w).value.0 := ParamOf(w).value.1])
  {
    assert (ws + [w])[..|ws|] == ws;
  }

  lemma Snoc<T>(a: seq<T>, b: seq<T>)
    requires b != []
    ensures a + b == a + b[..|b|-1] + [b[|b|-1]]
  {
  }

  /** The parameters words contribute when all are accepted. */
  lemma {:induction false} ParamsConcat(a: seq<string>, b: seq<string>, m: map<string, Param>, n: map<string, Param>)
    requires ParamsOf(a) == Some(m) && ParamsOf(b) == Some(n)
    ensures ParamsOf(a + b) == Some(m + n)
    decreases |b|
  {
    if b == [] {
      assert a + b == a;
      MapAppend(m, n, "", Flag);
    } else {
      var init, w := b[..|b|-1], b[|b|-1];
      var k, p := ParamsOf(init).value, ParamOf(w).value;
      ParamsConcat(a, init, m, k);
      ParamsAppend(a + init, w);
      Snoc(a, b);
      MapAppend(m, k, p.0, p.1);
    }
  }

  function ParamIf<K>(present: bool, key: K, p: Param): map<K, Param> {
    if present then map[key := p] else map[]
  }

  lemma OneParam(w: string, key: string, p: Param)
    requires ParamOf(w) == Some((key, p))
    ensures ParamsOf([w]) == Some(map[key := p])
  {
    assert [w][..0] == [] && ParamsOf([]) == Some(map[]);
  }

  lemma WordIfBack(present: bool, w: string, key: string, p: Param)
    requires present ==> ParamOf(w) == Some((key, p))
    ensures ParamsOf(WordIf(present, w)) == Some(ParamIf(present, key, p))
  {
    if present {
      OneParam(w, key, p);
    } else {
      assert ParamsOf([]) == Some(map[]);
    }
  }

  function PartsOf(d: map<string, Param>, key: string): seq<string> {
    if key in d && d[key].List? then d[key].parts else []
  }

  /** The parameters that come back. */
  function BackParams(d: map<string, Param>): map<string, Param>
    requires TypedParams(d)
  {
    ParamIf(NonemptyList(d, "mandatory"), "mandatory", List(BackList(PartsOf(d, "mandatory")))) +
    ParamIf(NonemptyList(d, "alpn"), "alpn", List(BackList(PartsOf(d, "alpn")))) +
    ParamIf(NO_DEFAULT_ALPN in d, NO_DEFAULT_ALPN, Flag) +
    ParamIf("port" in d, "port", if "port" in d then d["port"] else Flag) +
    ParamIf("ech" in d, "ech", Single(Without(EchText(d), '"')))
  }

  lemma PortBack(n: int)
    ensures PyInt(Without(Signed(n), '"')) == Some(n)
  {
    WithoutNothing(Signed(n), '"');
    IntOfPrinted(n);
  }

  lemma ListWordBack(d: map<string, Param>, key: string, quoted: bool)
    requires NonemptyList(d, key) && IsListKey(key) && '=' !in key
    ensures ParamOf(key + "=" + ListText(d, key, quoted)) == Some((key, List(BackList(d[key].parts))))
  {
    ParamBack(key, ListText(d, key, quoted));
    WithoutQuotes(d[key].parts);
  }

  lemma MandatoryBack(d: map<string, Param>)
    ensures ParamsOf(WordIf(NonemptyList(d, "mandatory"), "mandatory=" + ListText(d, "mandatory", false))) ==
            Some(ParamIf(NonemptyList(d, "mandatory"), "mandatory", List(BackList(PartsOf(d, "mandatory")))))
  {
    if NonemptyList(d, "mandatory") {
      ListWordBack(d, "mandatory", false);
      assert "mandatory" + "=" == "mandatory=";
    }
    WordIfBack(NonemptyList(d, "mandatory"), "mandatory=" + ListText(d, "mandatory", false), "mandatory",
               List(BackList(PartsOf(d, "mandatory"))));
  }

  lemma AlpnBack(d: map<string, Param>)
    ensures ParamsOf(WordIf(NonemptyList(d, "alpn"), "alpn=" + ListText(d, "alpn", true))) ==
            Some(ParamIf(NonemptyList(d, "alpn"), "alpn", List(BackList(PartsOf(d, "alpn")))))
  {
    if NonemptyList(d, "alpn") {
      ListWordBack(d, "alpn", true);
      assert "alpn" + "=" == "alpn=";
    }
    WordIfBack(NonemptyList(d, "alpn"), "alpn=" + ListText(d, "alpn", true), "alpn", List(BackList(PartsOf(d, "alpn"))));
  }

  lemma PortWordBack(d: map<string, Param>)
    requires TypedParams(d)
    ensures ParamsOf(WordIf("port" in d, "port=" + PortText(d))) ==
            Some(ParamIf("port" in d, "port", if "port" in d then d["port"] else Flag))
  {
    if "port" in d {
      PortBack(d["port"].n);
      ParamBack("port", PortText(d));
      assert "port" + "=" == "port=";
    }
    WordIfBack("port" in d, "port=" + PortText(d), "port", if "port" in d then d["port"] else Flag);
  }

  lemma EchWordBack(d: map<string, Param>)
    requires TypedParams(d)
    ensures ParamsOf(WordIf("ech" in d, "ech=" + EchText(d))) ==
            Some(ParamIf("ech" in d, "ech", Single(Without(EchText(d), '"'))))
  {
    ParamBack("ech", EchText(d));
    assert "ech" + "=" == "ech=";
    WordIfBack("ech" in d, "ech=" + EchText(d), "ech", Single(Without(EchText(d), '"')));
  }

  lemma WordsBack(d: map<string, Param>)
    requires TypedParams(d)
    ensures ParamsOf(ParamWords(d)) == Some(BackParams(d))
  {
    var w1 := WordIf(NonemptyList(d, "mandatory"), "mandatory=" + ListText(d, "mandatory", false));
    var w2 := WordIf(NonemptyList(d, "alpn"), "alpn=" + ListText(d, "alpn", true));
    var w3 := WordIf(NO_DEFAULT_ALPN in d, NO_DEFAULT_ALPN);
    var w4 := WordIf("port" in d, "port=" + PortText(d));
    var w5 := WordIf("ech" in d, "ech=" + EchText(d));
    MandatoryBack(d);
    AlpnBack(d);
    WordIfBack(NO_DEFAULT_ALPN in d, NO_DEFAULT_ALPN, NO_DEFAULT_ALPN, Flag);
    PortWordBack(d);
    EchWordBack(d);
    FiveParts(w1, w2, w3, w4, w5);
  }

  lemma FiveParts(a: seq<string>, b: seq<string>, c: seq<string>, d: seq<string>, e: seq<string>)
    requires ParamsOf(a).Some? && ParamsOf(b).Some? && ParamsOf(c).Some? && ParamsOf(d).Some? && ParamsOf(e).Some?
    ensures ParamsOf(a + b + c + d + e) ==
            Some(ParamsOf(a).value + ParamsOf(b).value + ParamsOf(c).value + ParamsOf(d).value + ParamsOf(e).value)
  {
    var m, n, o, p, q := ParamsOf(a).value, ParamsOf(b).value, ParamsOf(c).value, ParamsOf(d).value, ParamsOf(e).value;
    ParamsConcat(a, b, m, n);
    ParamsConcat(a + b, c, m + n, o);
    ParamsConcat(a + b + c, d, m + n + o, p);
    ParamsConcat(a + b + c + d, e, m + n + o + p, q);
  }

  predicate Distinct<K(==)>(a: K, b: K, c: K, d: K, e: K) {
    a != b && a != c && a != d && a != e && b != c && b != d && b != e && c != d && c != e && d != e
  }

  lemma KeysAreDistinct()
    ensures Distinct("mandatory", "alpn", NO_DEFAULT_ALPN, "port", "ech")
  {
    assert "alpn"[0] != "port"[0];
  }

  predicate ParamAt<K(==)>(m: map<K, Param>, key: K, present: bool, p: Param) {
    (key in m <==> present) && (present ==> m[key] == p)
  }

  lemma NewParam<K>(m: map<K, Param>, key: K, present: bool, p: Param)
    requires key !in m
    ensures ParamAt(m + ParamIf(present, key, p), key, present, p)
  {
  }

  lemma KeptParam<K>(m: map<K, Param>, key: K, present: bool, p: Param, other: K, there: bool, q: Param)
    requires key != other && ParamAt(m, key, present, p)
    ensures ParamAt(m + ParamIf(there, other, q), key, present, p)
  {
  }

  lemma TwoKeys<K>(a: K, b: K, pa: bool, pb: bool, va: Param, vb: Param)
    requires a != b
    ensures var r := ParamIf(pa, a, va) + ParamIf(pb, b, vb);
            ParamAt(r, a, pa, va) && ParamAt(r, b, pb, vb) && r.Keys <= {a, b}
  {
  }

  lemma ThreeKeys<K>(a: K, b: K, c: K, pa: bool, pb: bool, pc: bool, va: Param, vb: Param, vc: Param)
    requires a != b && a != c && b != c
    ensures var r := ParamIf(pa, a, va) + ParamIf(pb, b, vb) + ParamIf(pc, c, vc);
            ParamAt(r, a, pa, va) && ParamAt(r, b, pb, vb) && ParamAt(r, c, pc, vc) && r.Keys <= {a, b, c}
  {
    var m := ParamIf(pa, a, va) + ParamIf(pb, b, vb);
    TwoKeys(a, b, pa, pb, va, vb);
    KeptParam(m, a, pa, va, c, pc, vc);
    KeptParam(m, b, pb, vb, c, pc, vc);
    NewParam(m, c, pc, vc);
  }

  lemma FiveKeys<K>(a: K, b: K, c: K, d: K, e: K,
                    pa: bool, pb: bool, pc: bool, pd: bool, pe: bool, va: Param, vb: Param, vc: Param, vd: Param, ve: Param)
    requires Distinct(a, b, c, d, e)
    ensures var r := ParamIf(pa, a, va) + ParamIf(pb, b, vb) + ParamIf(pc, c, vc) + ParamIf(pd, d, vd) + ParamIf(pe, e, ve);
            && ParamAt(r, a, pa, va) && ParamAt(r, b, pb, vb) && ParamAt(r, c, pc, vc)
            && ParamAt(r, d, pd, vd) && ParamAt(r, e, pe, ve) && r.Keys <= {a, b, c, d, e}
  {
    var m := ParamIf(pa, a, va) + ParamIf(pb, b, vb) + ParamIf(pc, c, vc);
    var n := m + ParamIf(pd, d, vd);
    ThreeKeys(a, b, c, pa, pb, pc, va, vb, vc);
    KeptParam(m, a, pa, va, d, pd, vd);
    KeptParam(m, b, pb, vb, d, pd, vd);
    KeptParam(m, c, pc, vc, d, pd, vd);
    NewParam(m, d, pd, vd);
    KeptParam(n, a, pa, va, e, pe, ve);
    KeptParam(n, b, pb, vb, e, pe, ve);
    KeptParam(n, c, pc, vc, e, pe, ve);
    KeptParam(n, d, pd, vd, e, pe, ve);
    NewParam(n, e, pe, ve);
  }

  lemma BackParamsAt(d: map<string, Param>)
    requires TypedParams(d)
    ensures var r := BackParams(d);
            && ("mandatory" in r <==> NonemptyList(d, "mandatory"))
            && ("mandatory" in r ==> r["mandatory"] == List(BackList(d["mandatory"].parts)))
            && ("alpn" in r <==> NonemptyList(d, "alpn"))
            && ("alpn" in r ==> r["alpn"] == List(BackList(d["alpn"].parts)))
            && (NO_DEFAULT_ALPN in r <==> NO_DEFAULT_ALPN in d) && (NO_DEFAULT_ALPN in r ==> r[NO_DEFAULT_ALPN] == Flag)
            && ("port" in r <==> "port" in d) && ("port" in r ==> r["port"] == d["port"])
            && ("ech" in r <==> "ech" in d) && ("ech" in r ==> r["ech"] == Single(Without(d["ech"].s, '"')))
            && forall k :: k in r ==> Printable(k)
  {
    KeysAreDistinct();
    FiveKeys("mandatory", "alpn", NO_DEFAULT_ALPN, "port", "ech",
             NonemptyList(d, "mandatory"), NonemptyList(d, "alpn"), NO_DEFAULT_ALPN in d, "port" in d, "ech" in d,
             List(BackList(PartsOf(d, "mandatory"))), List(BackList(PartsOf(d, "alpn"))), Flag,
             if "port" in d then d["port"] else Flag, Single(Without(EchText(d), '"')));
  }

  /** A list that is there comes back exactly when it is not empty and its items are plain. */
  lemma ListParamBack(d: map<string, Param>, key: string)
    requires key in d && d[key].List?
    ensures PlainList(d, key) <==> NonemptyList(d, key) && List(BackList(d[key].parts)) == d[key]
  {
    if d[key].parts != [] {
      ListBack(d[key].parts);
    }
  }

  lemma EchBack(s: string)
    ensures Without(s, '"') == s <==> '"' !in s
  {
    WithoutIsWithout(s, '"');
    if '"' !in s {
      WithoutNothing(s, '"');
    }
  }

  lemma SurvivorsComeBack(d: map<string, Param>)
    requires TypedParams(d) && ParamsSurvive(d)
    ensures BackParams(d) == d
  {
    var r := BackParams(d);
    BackParamsAt(d);
    if "mandatory" in d {
      ListParamBack(d, "mandatory");
    }
    if "alpn" in d {
      ListParamBack(d, "alpn");
    }
    if "ech" in d {
      EchBack(d["ech"].s);
    }
    forall k | k in d || k in r
      ensures k in d && k in r && r[k] == d[k]
    {
      assert Printable(k);
    }
  }

  lemma WhatComesBackSurvives(d: map<string, Param>)
    requires TypedParams(d) && BackParams(d) == d
    ensures ParamsSurvive(d)
  {
    BackParamsAt(d);
    if "mandatory" in d {
      ListParamBack(d, "mandatory");
    }
    if "alpn" in d {
      ListParamBack(d, "alpn");
    }
    if "ech" in d {
      EchBack(d["ech"].s);
    }
  }

  /** Service parameters come back exactly when they survive: address hints are never
      printed, and values are split and stripped of quotes. */
  lemma ParamsBack(d: map<string, Param>)
    requires TypedParams(d)
    ensures ParamsOf(ParamWords(d)) == Some(d) <==> ParamsSurvive(d)
  {
    WordsBack(d);
    if ParamsSurvive(d) {
      SurvivorsComeBack(d);
    } else if BackParams(d) == d {
      WhatComesBackSurvives(d);
    }
  }
}
