/** The dump script: records and whole zones written as text. */
module ZoneDump {
  import opened Text
  import opened LocCodec
  import opened LocText
  import opened ZoneRdata

  /** A record as the server stores it: names without the trailing dot. */
  datatype Stored = Stored(name: string, ttl: nat, rtype: string, data: Data)

  // ---- What the script expects to find ----

  predicate HasChars(data: Data, name: string) {
    name in data && data[name].Chars?
  }

  predicate HasNum(data: Data, name: string) {
    name in data && data[name].Num?
  }

  predicate HasOctet(data: Data, name: string) {
    HasNum(data, name) && 0 <= data[name].n < 256
  }

  predicate TypedParams(d: map<string, Param>) {
    && ("mandatory" in d ==> d["mandatory"].List?)
    && ("alpn" in d ==> d["alpn"].List?)
    && (NO_DEFAULT_ALPN in d ==> d[NO_DEFAULT_ALPN].Flag?)
    && ("port" in d ==> d["port"].Number?)
    && ("ech" in d ==> d["ech"].Single?)
  }

  predicate TypedKey(k: IpsecKey) {
    k.gateway.Some? <==> k.gatewayType != 0
  }

  /** The data has the field, and the field has the kind of value its type asks for. */
  predicate TypedField(name: string, ft: FieldType, data: Data) {
    match ft
    case Uint16 => HasNum(data, name)
    case Uint32 => HasNum(data, name)
    case Int16 => HasNum(data, name)
    case Octet => HasNum(data, name)
    case TtlField => HasNum(data, name)
    case BitmapRest => name in data && data[name].Words?
    case TxtRest => name in data && data[name].Strings?
    case SvcRest => name in data && data[name].Params? && TypedParams(data[name].params)
    case IpsecRest => name in data && data[name].Key? && TypedKey(data[name].key)
    case PolarRest =>
      && HasOctet(data, "size") && HasOctet(data, "horizontal_precision") && HasOctet(data, "vertical_precision")
      && HasNum(data, "latitude") && HasNum(data, "longitude") && HasNum(data, "altitude")
    case _ => HasChars(data, name)
  }

  predicate TypedFields(fields: Fields, data: Data) {
    forall i :: 0 <= i < |fields| ==> TypedField(fields[i].0, fields[i].1, data)
  }

  predicate Typed(rr: Stored) {
    Supported(rr.rtype) && TypedFields(FieldsOf(rr.rtype), rr.data)
  }

  // ---- The text ----

  function Quote(s: string): string {
    "\"" + s + "\""
  }

  function QuoteAll(ss: seq<string>): (r: seq<string>)
    ensures |r| == |ss| && forall i :: 0 <= i < |r| ==> r[i] == Quote(ss[i])
  {
    seq(|ss|, i requires 0 <= i < |ss| => Quote(ss[i]))
  }

  function WordIf(present: bool, w: string): seq<string> {
    if present then [w] else []
  }

  predicate NonemptyList(d: map<string, Param>, key: string) {
    key in d && d[key].List? && |d[key].parts| > 0
  }

  function ListText(d: map<string, Param>, key: string, quoted: bool): string {
    if NonemptyList(d, key) then Join(if quoted then QuoteAll(d[key].parts) else d[key].parts, ",") else ""
  }

  function PortText(d: map<string, Param>): string
    requires TypedParams(d)
  {
    if "port" in d then Signed(d["port"].n) else ""
  }

  function EchText(d: map<string, Param>): string
    requires TypedParams(d)
  {
    if "ech" in d then d["ech"].s else ""
  }

  /** The words of the service parameters, in the order they are written. Address hints are
      not written. */
  function ParamWords(d: map<string, Param>): seq<string>
    requires TypedParams(d)
  {
    WordIf(NonemptyList(d, "mandatory"), "mandatory=" + ListText(d, "mandatory", false)) +
    WordIf(NonemptyList(d, "alpn"), "alpn=" + ListText(d, "alpn", true)) +
    WordIf(NO_DEFAULT_ALPN in d, NO_DEFAULT_ALPN) +
    WordIf("port" in d, "port=" + PortText(d)) +
    WordIf("ech" in d, "ech=" + EchText(d))
  }

  /** Words with a space behind each. */
  function Spread(ws: seq<string>): string {
    Flat(Spaced(ws))
  }

  function PolarIn(data: Data): Polar
    requires TypedField("", PolarRest, data)
  {
    Polar(data["size"].n, data["horizontal_precision"].n, data["vertical_precision"].n,
          data["latitude"].n, data["longitude"].n, data["altitude"].n)
  }

  function KeyText(k: IpsecKey): string
    requires TypedKey(k)
  {
    Signed(k.precedence) + " " + Signed(k.algorithm) + " " + Signed(k.gatewayType) + " " +
    (if k.gatewayType == 0 then "" else k.gateway.value) + " " + k.publicKey
  }

  function FieldText(name: string, ft: FieldType, data: Data): string
    requires TypedField(name, ft, data)
  {
    match ft
    case NameField => data[name].s + ". "
    case Quoted => Quote(data[name].s) + " "
    case Uint16 => Signed(data[name].n) + " "
    case Uint32 => Signed(data[name].n) + " "
    case Int16 => Signed(data[name].n) + " "
    case Octet => Signed(data[name].n) + " "
    case TtlField => Signed(data[name].n) + " "
    case TxtRest => Spread(QuoteAll(data[name].ss))
    case SvcRest => Spread(ParamWords(data[name].params))
    case PolarRest => Spread(PolarWords(PolarIn(data)))
    case IpsecRest => KeyText(data[name].key)
    case BitmapRest => Join(data[name].ws, " ") + " "
    case _ => data[name].s + " "
  }

  function FieldTexts(fields: Fields, data: Data): (r: seq<string>)
    requires TypedFields(fields, data)
    ensures |r| == |fields|
  {
    seq(|fields|, i requires 0 <= i < |fields| => FieldText(fields[i].0, fields[i].1, data))
  }

  function RecordHead(rr: Stored): string {
    rr.name + ". " + Decimal(rr.ttl) + " IN " + rr.rtype + " "
  }

  function RecordText(rr: Stored): string
    requires Typed(rr)
  {
    RecordHead(rr) + Flat(FieldTexts(FieldsOf(rr.rtype), rr.data)) + "\n"
  }

  predicate AllTyped(rrs: seq<Stored>) {
    forall i :: 0 <= i < |rrs| ==> Typed(rrs[i])
  }

  function RecordTexts(rrs: seq<Stored>): (r: seq<string>)
    requires AllTyped(rrs)
    ensures |r| == |rrs| && forall i :: 0 <= i < |r| ==> r[i] == RecordText(rrs[i])
  {
    seq(|rrs|, i requires 0 <= i < |rrs| => RecordText(rrs[i]))
  }

  /** A whole zone: default TTL, origin, SOA, NS records, then the others. */
  datatype Zone = Zone(name: string, soa: Stored, ns: seq<Stored>, others: seq<Stored>)

  function ZoneRecords(z: Zone): seq<Stored> {
    [z.soa] + z.ns + z.others
  }

  predicate TypedZone(z: Zone) {
    AllTyped(ZoneRecords(z))
  }

  function ZoneText(z: Zone): string
    requires TypedZone(z)
  {
    "$TTL    86400\n" + ("$ORIGIN " + z.name + ".\n" + Flat(RecordTexts(ZoneRecords(z))))
  }

  // ---- Writing it ----

  /** A file opened for writing. */
  class Output {
    var text: string

    constructor ()
      ensures text == ""
    {
      text := "";
    }

    method Write(s: string)
      modifies this
      ensures text == old(text) + s
    {
      text := text + s;
    }
  }

  /** dump_txt. */
  method DumpTxt(f: Output, ss: seq<string>)
    modifies f
    ensures f.text == old(f.text) + Spread(QuoteAll(ss))
  {
    ghost var before, all := f.text, Spaced(QuoteAll(ss));
    var i := 0;
    while i < |ss|
      invariant 0 <= i <= |ss| && f.text == before + Flat(all[..i])
    {
      f.Write(Quote(ss[i]) + " ");
      FlatAppend(all, i);
      i := i + 1;
    }
    assert all[..i] == all;
  }

  lemma SpreadConcat(a: seq<string>, b: seq<string>)
    ensures Spread(a + b) == Spread(a) + Spread(b)
  {
    assert Spaced(a + b) == Spaced(a) + Spaced(b);
    FlatConcat(Spaced(a), Spaced(b));
  }

  lemma SpreadOne(w: string)
    ensures Spread([w]) == w + " "
  {
    assert Spaced([w]) == [w + " "];
    FlatOne(w + " ");
  }

  /** Writes a word and a space behind it, if the word is there at all. */
  method WriteWord(f: Output, present: bool, w: string, ghost before: string, ghost words: seq<string>)
    requires f.text == before + Spread(words)
    modifies f
    ensures f.text == before + Spread(words + WordIf(present, w))
  {
    if present {
      f.Write(w + " ");
      SpreadOne(w);
    }
    assert Spread([]) == "";
    SpreadConcat(words, WordIf(present, w));
  }

  /** dump_svcparams. */
  method DumpSvcparams(f: Output, d: map<string, Param>)
    requires TypedParams(d)
    modifies f
    ensures f.text == old(f.text) + Spread(ParamWords(d))
  {
    ghost var before := f.text;
    ghost var w1 := WordIf(NonemptyList(d, "mandatory"), "mandatory=" + ListText(d, "mandatory", false));
    ghost var w2 := w1 + WordIf(NonemptyList(d, "alpn"), "alpn=" + ListText(d, "alpn", true));
    ghost var w3 := w2 + WordIf(NO_DEFAULT_ALPN in d, NO_DEFAULT_ALPN);
    ghost var w4 := w3 + WordIf("port" in d, "port=" + PortText(d));
    assert [] + w1 == w1;
    WriteWord(f, NonemptyList(d, "mandatory"), "mandatory=" + ListText(d, "mandatory", false), before, []);
    WriteWord(f, NonemptyList(d, "alpn"), "alpn=" + ListText(d, "alpn", true), before, w1);
    WriteWord(f, NO_DEFAULT_ALPN in d, NO_DEFAULT_ALPN, before, w2);
    WriteWord(f, "port" in d, "port=" + PortText(d), before, w3);
    WriteWord(f, "ech" in d, "ech=" + EchText(d), before, w4);
  }

  /** dump_latitude_longitude. */
  method DumpLatitudeLongitude(f: Output, l: int, negative: string, positive: string)
    modifies f
    ensures f.text == old(f.text) + Spread(CoordinateWords(CoordinateOf(l, negative, positive)))
  {
    var c := TakeApart(l, negative, positive);
    SpreadFour(Decimal(c.degrees), Decimal(c.minutes), Fixed(c.thousandths, 3), c.hemi);
    f.Write(Decimal(c.degrees) + " " + Decimal(c.minutes) + " " + Fixed(c.thousandths, 3) + " " + c.hemi + " ");
  }

  lemma SpreadFour(a: string, b: string, c: string, d: string)
    ensures Spread([a, b, c, d]) == a + " " + b + " " + c + " " + d + " "
  {
    SpreadOne(a);
    SpreadOne(b);
    SpreadOne(c);
    SpreadOne(d);
    SpreadConcat([a], [b]);
    SpreadConcat([a] + [b], [c]);
    SpreadConcat([a] + [b] + [c], [d]);
    assert [a] + [b] + [c] + [d] == [a, b, c, d];
  }

  /** dump_size, for a size the script does not refuse. */
  method DumpSize(f: Output, size: int)
    requires 0 <= size < 256
    modifies f
    ensures f.text == old(f.text) + (SizeText(size) + " ")
  {
    var mantissa := size / 16 % 16;
    var exponent := size % 16;
    var sizeCm := mantissa * Pow10(exponent);
    var sizeM := sizeCm as real / 100.0;
    var text := Signed(Round(sizeM)) + "m";
    assert text == SizeText(size);
    f.Write(text + " ");
  }

  /** dump_altitude. */
  method DumpAltitude(f: Output, altitude: int)
    modifies f
    ensures f.text == old(f.text) + (AltitudeText(altitude) + " ")
  {
    f.Write(Fixed(altitude - ALTITUDE_BASE, 2) + "m" + " ");
  }

  lemma Assoc(t: string, a: string, b: string, c: string)
    ensures t + a + b + c == t + (a + b + c)
  {
  }

  lemma AssocFour(t: string, a: string, b: string, c: string, d: string)
    ensures t + a + b + c + d == t + (a + b + c + d)
  {
  }

  lemma SpreadFourWords(a: string, b: string, c: string, d: string)
    ensures Spread([a, b, c, d]) == (a + " ") + (b + " ") + (c + " ") + (d + " ")
  {
    SpreadFour(a, b, c, d);
  }

  /** The second half of dump_polar. */
  method DumpSizes(f: Output, altitude: int, size: int, horizontal: int, vertical: int)
    requires 0 <= size < 256 && 0 <= horizontal < 256 && 0 <= vertical < 256
    modifies f
    ensures f.text == old(f.text) + Spread([AltitudeText(altitude), SizeText(size), SizeText(horizontal), SizeText(vertical)])
  {
    SpreadFourWords(AltitudeText(altitude), SizeText(size), SizeText(horizontal), SizeText(vertical));
    AssocFour(f.text, AltitudeText(altitude) + " ", SizeText(size) + " ", SizeText(horizontal) + " ", SizeText(vertical) + " ");
    DumpAltitude(f, altitude);
    DumpSize(f, size);
    DumpSize(f, horizontal);
    DumpSize(f, vertical);
  }

  lemma SpreadThree(a: seq<string>, b: seq<string>, c: seq<string>)
    ensures Spread(a + b + c) == Spread(a) + Spread(b) + Spread(c)
  {
    SpreadConcat(a + b, c);
    SpreadConcat(a, b);
  }

  /** dump_polar. */
  method DumpPolar(f: Output, data: Data)
    requires TypedField("", PolarRest, data)
    modifies f
    ensures f.text == old(f.text) + Spread(PolarWords(PolarIn(data)))
  {
    ghost var a := CoordinateWords(CoordinateOf(data["latitude"].n, "S", "N"));
    ghost var b := CoordinateWords(CoordinateOf(data["longitude"].n, "W", "E"));
    ghost var c := [AltitudeText(data["altitude"].n), SizeText(data["size"].n),
                    SizeText(data["horizontal_precision"].n), SizeText(data["vertical_precision"].n)];
    SpreadThree(a, b, c);
    Assoc(f.text, Spread(a), Spread(b), Spread(c));
    DumpLatitudeLongitude(f, data["latitude"].n, "S", "N");
    DumpLatitudeLongitude(f, data["longitude"].n, "W", "E");
    DumpSizes(f, data["altitude"].n, data["size"].n, data["horizontal_precision"].n, data["vertical_precision"].n);
  }

  lemma AssocKey(t: string, head: string, gateway: string, key: string)
    ensures t + head + gateway + (" " + key) == t + (head + gateway + " " + key)
    ensures gateway == "" ==> t + head + (" " + key) == t + (head + gateway + " " + key)
  {
  }

  /** dump_ipseckey. */
  method DumpIpseckey(f: Output, k: IpsecKey)
    requires TypedKey(k)
    modifies f
    ensures f.text == old(f.text) + KeyText(k)
  {
    ghost var head := Signed(k.precedence) + " " + Signed(k.algorithm) + " " + Signed(k.gatewayType) + " ";
    AssocKey(f.text, head, if k.gatewayType == 0 then "" else k.gateway.value, k.publicKey);
    f.Write(Signed(k.precedence) + " " + Signed(k.algorithm) + " " + Signed(k.gatewayType) + " ");
    if k.gatewayType != 0 {
      f.Write(k.gateway.value);
    }
    f.Write(" " + k.publicKey);
  }

  /** One turn of the loop of dump_record. */
  method DumpField(f: Output, name: string, ft: FieldType, data: Data)
    requires TypedField(name, ft, data)
    modifies f
    ensures f.text == old(f.text) + FieldText(name, ft, data)
  {
    match ft
    case NameField => f.Write(data[name].s + ". ");
    case TxtRest => DumpTxt(f, data[name].ss);
    case SvcRest => DumpSvcparams(f, data[name].params);
    case PolarRest => DumpPolar(f, data);
    case IpsecRest => DumpIpseckey(f, data[name].key);
    case BitmapRest => f.Write(Join(data[name].ws, " ") + " ");
    case Quoted => f.Write(Quote(data[name].s) + " ");
    case Uint16 => f.Write(Signed(data[name].n) + " ");
    case Uint32 => f.Write(Signed(data[name].n) + " ");
    case Int16 => f.Write(Signed(data[name].n) + " ");
    case Octet => f.Write(Signed(data[name].n) + " ");
    case TtlField => f.Write(Signed(data[name].n) + " ");
    case _ => f.Write(data[name].s + " ");
  }

  lemma OneMore(before: string, all: seq<string>, i: nat)
    requires i < |all|
    ensures before + Flat(all[..i]) + all[i] == before + Flat(all[..i+1])
  {
    FlatAppend(all, i);
  }

  /** One turn of the loop of dump_record, behind what is written already. */
  method DumpFieldAt(f: Output, fields: Fields, data: Data, i: nat, ghost before: string, ghost all: seq<string>)
    requires i < |fields| && TypedFields(fields, data) && all == FieldTexts(fields, data)
    requires f.text == before + Flat(all[..i])
    modifies f
    ensures f.text == before + Flat(all[..i+1])
  {
    OneMore(before, all, i);
    DumpField(f, fields[i].0, fields[i].1, data);
  }

  /** The loop of dump_record. */
  method DumpFields(f: Output, fields: Fields, data: Data)
    requires TypedFields(fields, data)
    modifies f
    ensures f.text == old(f.text) + Flat(FieldTexts(fields, data))
  {
    ghost var before, all := f.text, FieldTexts(fields, data);
    var i := 0;
    while i < |fields|
      invariant 0 <= i <= |fields| && f.text == before + Flat(all[..i])
    {
      DumpFieldAt(f, fields, data, i, before, all);
      i := i + 1;
    }
    assert all[..i] == all;
  }

  /** dump_record. */
  method DumpRecord(f: Output, rr: Stored)
    requires Typed(rr)
    modifies f
    ensures f.text == old(f.text) + RecordText(rr)
  {
    Assoc(f.text, RecordHead(rr), Flat(FieldTexts(FieldsOf(rr.rtype), rr.data)), "\n");
    f.Write(rr.name + ". " + Decimal(rr.ttl) + " IN " + rr.rtype + " ");
    DumpFields(f, FieldsOf(rr.rtype), rr.data);
    f.Write("\n");
  }

  method DumpRecordAt(f: Output, rrs: seq<Stored>, i: nat, ghost before: string, ghost all: seq<string>)
    requires i < |rrs| && AllTyped(rrs) && all == RecordTexts(rrs)
    requires f.text == before + Flat(all[..i])
    modifies f
    ensures f.text == before + Flat(all[..i+1])
  {
    OneMore(before, all, i);
    DumpRecord(f, rrs[i]);
  }

  /** The loops of dump_zone. */
  method DumpRecords(f: Output, rrs: seq<Stored>)
    requires AllTyped(rrs)
    modifies f
    ensures f.text == old(f.text) + Flat(RecordTexts(rrs))
  {
    ghost var before, all := f.text, RecordTexts(rrs);
    var i := 0;
    while i < |rrs|
      invariant 0 <= i <= |rrs| && f.text == before + Flat(all[..i])
    {
      DumpRecordAt(f, rrs, i, before, all);
      i := i + 1;
    }
    assert all[..i] == all;
  }

  lemma TypedParts(a: seq<Stored>, b: seq<Stored>)
    requires AllTyped(a + b)
    ensures AllTyped(a) && AllTyped(b)
    ensures RecordTexts(a + b) == RecordTexts(a) + RecordTexts(b)
  {
    assert forall i :: 0 <= i < |a| ==> (a + b)[i] == a[i];
    forall i | 0 <= i < |b|
      ensures b[i] == (a + b)[|a| + i]
    {
    }
  }

  lemma ZoneTexts(z: Zone)
    requires TypedZone(z)
    ensures Typed(z.soa) && AllTyped([z.soa]) && AllTyped(z.ns) && AllTyped(z.others)
    ensures Flat(RecordTexts(ZoneRecords(z))) ==
            Flat(RecordTexts([z.soa])) + Flat(RecordTexts(z.ns)) + Flat(RecordTexts(z.others))
  {
    TypedParts([z.soa] + z.ns, z.others);
    TypedParts([z.soa], z.ns);
    assert [z.soa][0] == z.soa;
    FlatConcat(RecordTexts([z.soa] + z.ns), RecordTexts(z.others));
    FlatConcat(RecordTexts([z.soa]), RecordTexts(z.ns));
  }

  lemma OneRecordText(rr: Stored)
    requires Typed(rr)
    ensures Flat(RecordTexts([rr])) == RecordText(rr)
  {
    assert RecordTexts([rr]) == [RecordText(rr)];
    FlatOne(RecordText(rr));
  }

  lemma AssocZone(t: string, o: string, a: string, b: string, c: string)
    ensures "" + t + o + a + b + c == t + (o + (a + b + c))
  {
  }

  /** dump_zone. */
  method DumpZone(z: Zone) returns (f: Output)
    requires TypedZone(z)
    ensures fresh(f) && f.text == ZoneText(z)
  {
    f := new Output();
    ZoneTexts(z);
    AssocZone("$TTL    86400\n", "$ORIGIN " + z.name + ".\n",
              Flat(RecordTexts([z.soa])), Flat(RecordTexts(z.ns)), Flat(RecordTexts(z.others)));
    f.Write("$TTL    86400\n");
    f.Write("$ORIGIN " + z.name + ".\n");
    OneRecordText(z.soa);
    DumpRecord(f, z.soa);
    DumpRecords(f, z.ns);
    DumpRecords(f, z.others);
  }
}
