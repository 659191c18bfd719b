/** What the field table makes of a record's tokens: service parameters by their keys, and
    the fields of common records by their places. */
module ZoneFields {
  import opened Dns
  import opened Text
  import opened ZoneToken
  import opened ZoneUtil
  import opened ZoneRdata

  // ---- Service parameters ----

  lemma FindFirst(a: string, c: char, b: string)
    requires c !in a
    ensures Find(a + [c] + b, c) == |a|
    decreases |a|
  {
    var s := a + [c] + b;
    if a != "" {
      assert s[0] == a[0] && s[1..] == a[1..] + [c] + b;
      FindFirst(a[1..], c, b);
    }
  }

  lemma FindNothing(s: string, c: char)
    requires c !in s
    ensures Find(s, c) == |s|
    decreases |s|
  {
    if s != "" {
      FindNothing(s[1..], c);
    }
  }

  lemma NoEqualsSign(s: string)
    requires '=' in s
    ensures s != "no-default-alpn"
  {
  }

  lemma NamedInWords(key: string, v: string)
    ensures NamedParam(key, v) ==
              if key == "port" then (match PyInt(v) case None => None case Some(n) => Some((key, Number(n))))
              else if key == "ech" then Some((key, Single(v)))
              else if key in ["alpn", "mandatory", "ipv4hint", "ipv6hint"] then Some((key, List(Split(v, ','))))
              else None
  {
  }

  /** A service parameter is a key, an equals sign and a value whose quotes do not count, or
      the one key that has no value. */
  lemma ParamInWords(key: string, v: string, s: string)
    requires '=' !in key && s == key + ['='] + v
    ensures var value := Without(v, '"');
            ParamOf(s) ==
              if key == "port" then (match PyInt(value) case None => None case Some(n) => Some((key, Number(n))))
              else if key == "ech" then Some((key, Single(value)))
              else if key in ["alpn", "mandatory", "ipv4hint", "ipv6hint"] then Some((key, List(Split(value, ','))))
              else None
    ensures ParamOf(key) == if key == "no-default-alpn" then Some(("no-default-alpn", Flag)) else None
  {
    FindFirst(key, '=', v);
    assert s[..|key|] == key && s[|key|+1..] == v && s[|key|] == '=';
    NoEqualsSign(s);
    NamedInWords(key, Without(v, '"'));
    FindNothing(key, '=');
  }

  // ---- Fields that take the rest ----

  /** An IPSECKEY is three numbers, a gateway that counts unless its type is 0, and a key in
      as many words as it likes: five words at least. */
  lemma KeyInWords(p: int, a: int, g: int, gateway: string, key: seq<string>, c: Checks)
    ensures KeyOf([Signed(p), Signed(a), Signed(g), gateway] + key, c) ==
            if key != [] && c.base64(Concat(key))
            then Some(IpsecKey(p, a, g, if g == 0 then None else Some(gateway), Concat(key)))
            else None
  {
    var ts := [Signed(p), Signed(a), Signed(g), gateway] + key;
    IntOfPrinted(p);
    IntOfPrinted(a);
    IntOfPrinted(g);
    assert ts[0] == Signed(p) && ts[1] == Signed(a) && ts[2] == Signed(g) && ts[3] == gateway && ts[4..] == key;
  }

  /** Texts are strings of at most 255 characters, and a type bitmap names types that have
      fields. */
  lemma RestInWords(name: string, ts: seq<Token>, c: Checks)
    requires AllHaveValues(ts)
    ensures RestData(name, TxtRest, ts, c).Some? <==> forall i :: 0 <= i < |ts| ==> ts[i].Str? && |ts[i].text| <= 255
    ensures RestData(name, BitmapRest, ts, c).Some? <==> forall i :: 0 <= i < |ts| ==> FieldsOf(Texts(ts)[i]) != []
  {
  }

  // ---- Fields by their places ----

  ghost function Names(fields: Fields): set<string> {
    set i | 0 <= i < |fields| :: fields[i].0
  }

  predicate OneTokenEach(fields: Fields) {
    && (forall i :: 0 <= i < |fields| ==> !TakesRest(fields[i].1))
    && forall i, j :: 0 <= i < j < |fields| ==> fields[i].0 != fields[j].0
  }

  /** As many tokens as fields, and each field with the value of the token in its place. */
  ghost predicate InPlaces(fields: Fields, origin: Option<string>, ts: seq<Token>, c: Checks, d: Data)
    requires AllHaveValues(ts) && OneTokenEach(fields)
  {
    && |ts| == |fields| && d.Keys == Names(fields)
    && forall i :: 0 <= i < |fields| ==>
         fields[i].0 in d && FieldValue(origin, fields[i].1, ts[i], c) == Some(d[fields[i].0])
  }

  lemma NamesFirst(fields: Fields)
    requires fields != []
    ensures Names(fields) == {fields[0].0} + Names(fields[1..])
  {
    forall n | n in Names(fields)
      ensures n in {fields[0].0} + Names(fields[1..])
    {
      var i :| 0 <= i < |fields| && fields[i].0 == n;
      if i > 0 {
        assert fields[1..][i-1].0 == n;
      }
    }
    assert forall i :: 0 <= i < |fields| - 1 ==> fields[1..][i] == fields[i+1];
  }

  lemma PlacesFirst(fields: Fields, origin: Option<string>, ts: seq<Token>, c: Checks, v: Value, more: Data)
    requires fields != [] && ts != [] && AllHaveValues(ts) && OneTokenEach(fields)
    requires FieldValue(origin, fields[0].1, ts[0], c) == Some(v) && InPlaces(fields[1..], origin, ts[1..], c, more)
    ensures InPlaces(fields, origin, ts, c, map[fields[0].0 := v] + more)
  {
    NamesFirst(fields);
    assert forall j :: 0 <= j < |fields[1..]| ==> fields[1..][j] == fields[j+1];
    assert fields[0].0 !in Names(fields[1..]);
    var d := map[fields[0].0 := v] + more;
    forall i | 0 <= i < |fields|
      ensures fields[i].0 in d && FieldValue(origin, fields[i].1, ts[i], c) == Some(d[fields[i].0])
    {
      if i > 0 {
        assert fields[1..][i-1] == fields[i] && ts[1..][i-1] == ts[i];
      }
    }
  }

  /** Every token becomes the value of the field in its place, or the record is refused. */
  lemma {:induction false} FieldByField(fields: Fields, origin: Option<string>, ts: seq<Token>, c: Checks)
    requires AllHaveValues(ts) && OneTokenEach(fields)
    ensures var d := DataOf(fields, origin, ts, c);
            && (d.Some? ==> InPlaces(fields, origin, ts, c, d.value))
            && (d.None? ==> |ts| != |fields| || exists i :: 0 <= i < |fields| && FieldValue(origin, fields[i].1, ts[i], c).None?)
    decreases |fields|
  {
    if fields != [] && ts != [] {
      FieldByField(fields[1..], origin, ts[1..], c);
      var v, more := FieldValue(origin, fields[0].1, ts[0], c), DataOf(fields[1..], origin, ts[1..], c);
      if v.Some? && more.Some? {
        PlacesFirst(fields, origin, ts, c, v.value, more.value);
      } else if v.Some? && |ts| == |fields| {
        var i :| 0 <= i < |fields[1..]| && FieldValue(origin, fields[1..][i].1, ts[1..][i], c).None?;
        assert FieldValue(origin, fields[i+1].1, ts[i+1], c).None?;
      }
    }
  }

  // ---- Common records ----

  /** The numbers and names of a record's data as a zone file spells them. */
  function NumberWord(n: nat): Token {
    Word(Decimal(n))
  }

  lemma SmallNumber(n: nat, origin: Option<string>, c: Checks)
    ensures FieldValue(origin, Uint16, NumberWord(n), c) == if n <= 65_536 then Some(Num(n)) else None
  {
    IntOfPrinted(n);
  }

  lemma NameWord(name: string, origin: Option<string>, c: Checks)
    requires IsFqdn(name)
    ensures FieldValue(origin, NameField, Word(name), c) == Some(Chars(name))
  {
  }

  lemma AddressFields()
    ensures FieldsOf("A") == [("ip4_addr", Ip4)] && FieldsOf("AAAA") == [("ip6_addr", Ip6)]
  {
  }

  lemma MxFields(fields: Fields)
    requires fields == [("preference", Uint16), ("exchange", NameField)]
    ensures FieldsOf("MX") == fields && OneTokenEach(fields)
  {
  }

  lemma SrvFields(fields: Fields)
    requires fields == [("priority", Uint16), ("weight", Uint16), ("port", Uint16), ("target", NameField)]
    ensures FieldsOf("SRV") == fields && OneTokenEach(fields)
  {
  }

  /** A start of authority is a server and a mailbox, then serial number, refresh, retry,
      expire and minimum. */
  lemma SoaFields(fields: Fields)
    requires fields ==
              [("mname", NameField), ("rname", NameField), ("serial", Uint32), ("refresh", TtlField), ("retry", TtlField),
               ("expire", TtlField), ("minimum", TtlField)]
    ensures FieldsOf("SOA") == fields && OneTokenEach(fields)
  {
  }

  /** An address record is the word if the library takes it for an address of the family. */
  lemma AddressData(s: string, origin: Option<string>, c: Checks)
    ensures RdataOf("A", origin, [Word(s)], c) == if c.ip4(s) then Some(map["ip4_addr" := Chars(s)]) else None
    ensures RdataOf("AAAA", origin, [Word(s)], c) == if c.ip6(s) then Some(map["ip6_addr" := Chars(s)]) else None
  {
    AddressFields();
    OneField("ip4_addr", Ip4, origin, Word(s), c);
    OneField("ip6_addr", Ip6, origin, Word(s), c);
  }

  lemma OneField(name: string, ft: FieldType, origin: Option<string>, t: Token, c: Checks)
    requires !TakesRest(ft) && HasValue(t)
    ensures DataOf([(name, ft)], origin, [t], c) ==
              match FieldValue(origin, ft, t, c) case None => None case Some(v) => Some(map[name := v])
  {
    var fields: Fields, ts := [(name, ft)], [t];
    assert fields[1..] == [] && ts[1..] == [];
    match FieldValue(origin, ft, t, c)
    case None =>
    case Some(v) => assert map[name := v] + map[] == map[name := v];
  }

  /** The data holds these values under the names of the fields, and nothing else. */
  ghost predicate Holds(d: Option<Data>, fields: Fields, vs: seq<Value>)
    requires |vs| == |fields|
  {
    && d.Some? && d.value.Keys == Names(fields)
    && forall i :: 0 <= i < |fields| ==> fields[i].0 in d.value && d.value[fields[i].0] == vs[i]
  }

  lemma AllFields(fields: Fields, origin: Option<string>, ts: seq<Token>, c: Checks, vs: seq<Value>)
    requires AllHaveValues(ts) && OneTokenEach(fields) && |ts| == |vs| == |fields| > 0
    requires forall i :: 0 <= i < |fields| ==> FieldValue(origin, fields[i].1, ts[i], c) == Some(vs[i])
    ensures Holds(DataOf(fields, origin, ts, c), fields, vs)
  {
    FieldByField(fields, origin, ts, c);
  }

  lemma TypeData(rtype: string, fields: Fields, origin: Option<string>, ts: seq<Token>, c: Checks, vs: seq<Value>)
    requires fields == FieldsOf(rtype) && AllHaveValues(ts) && OneTokenEach(fields) && |ts| == |vs| == |fields| > 0
    requires forall i :: 0 <= i < |fields| ==> FieldValue(origin, fields[i].1, ts[i], c) == Some(vs[i])
    ensures Holds(RdataOf(rtype, origin, ts, c), fields, vs)
  {
    AllFields(fields, origin, ts, c, vs);
  }

  lemma MxValues(rtype: string, fields: Fields, n: nat, name: string, origin: Option<string>, c: Checks)
    requires |fields| == 2 && fields[0].1.Uint16? && fields[1].1.NameField? && FieldsOf(rtype) == fields && OneTokenEach(fields)
    requires n <= 65_536 && IsFqdn(name)
    ensures Holds(RdataOf(rtype, origin, [NumberWord(n), Word(name)], c), fields, [Num(n), Chars(name)])
  {
    SmallNumber(n, origin, c);
    NameWord(name, origin, c);
    TypeData(rtype, fields, origin, [NumberWord(n), Word(name)], c, [Num(n), Chars(name)]);
  }

  /** A mail exchanger is a preference and a name. */
  lemma MxData(n: nat, name: string, origin: Option<string>, c: Checks)
    requires n <= 65_536 && IsFqdn(name)
    ensures Holds(RdataOf("MX", origin, [NumberWord(n), Word(name)], c),
                  [("preference", Uint16), ("exchange", NameField)], [Num(n), Chars(name)])
  {
    var fields: Fields := [("preference", Uint16), ("exchange", NameField)];
    MxFields(fields);
    MxValues("MX", fields, n, name, origin, c);
  }

  lemma SrvValues(rtype: string, fields: Fields, p: nat, w: nat, port: nat, name: string, origin: Option<string>, c: Checks)
    requires |fields| == 4 && fields[0].1.Uint16? && fields[1].1.Uint16? && fields[2].1.Uint16? && fields[3].1.NameField?
    requires FieldsOf(rtype) == fields && OneTokenEach(fields)
    requires p <= 65_536 && w <= 65_536 && port <= 65_536 && IsFqdn(name)
    ensures Holds(RdataOf(rtype, origin, [NumberWord(p), NumberWord(w), NumberWord(port), Word(name)], c), fields,
                  [Num(p), Num(w), Num(port), Chars(name)])
  {
    var ts, vs := [NumberWord(p), NumberWord(w), NumberWord(port), Word(name)], [Num(p), Num(w), Num(port), Chars(name)];
    forall i | 0 <= i < 4
      ensures FieldValue(origin, fields[i].1, ts[i], c) == Some(vs[i])
    {
      if i == 3 {
        NameWord(name, origin, c);
      } else {
        SmallNumber(vs[i].n, origin, c);
      }
    }
    TypeData(rtype, fields, origin, ts, c, vs);
  }

  /** A service is a priority, a weight, a port and a name. */
  lemma SrvData(p: nat, w: nat, port: nat, name: string, origin: Option<string>, c: Checks)
    requires p <= 65_536 && w <= 65_536 && port <= 65_536 && IsFqdn(name)
    ensures Holds(RdataOf("SRV", origin, [NumberWord(p), NumberWord(w), NumberWord(port), Word(name)], c),
                  [("priority", Uint16), ("weight", Uint16), ("port", Uint16), ("target", NameField)],
                  [Num(p), Num(w), Num(port), Chars(name)])
  {
    var fields: Fields := [("priority", Uint16), ("weight", Uint16), ("port", Uint16), ("target", NameField)];
    SrvFields(fields);
    SrvValues("SRV", fields, p, w, port, name, origin, c);
  }
}
