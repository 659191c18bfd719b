/** The data of resource records: the field table, and the parsing of a record's tokens
    after the type. */
module ZoneRdata {
  import opened Dns
  import opened Text
  import opened ZoneToken
  import opened ZoneUtil
  import opened LocText

  datatype FieldType =
    | NameField | Uint16 | Uint32 | Quoted | TtlField | Ip4 | Ip6 | Int16 | Octet | AnyText
    | LowerAlnum | Eui48 | Eui64
    | Base64Rest | HexRest | BitmapRest | TxtRest | SvcRest | IpsecRest | PolarRest

  /** Field types that take all the tokens that are left. */
  predicate TakesRest(t: FieldType) {
    t.Base64Rest? || t.HexRest? || t.BitmapRest? || t.TxtRest? || t.SvcRest? || t.IpsecRest? || t.PolarRest?
  }

  type Fields = seq<(string, FieldType)>

  /** record_fields; empty for a type that is not in the table. */
  function FieldsOf(t: string): Fields {
    match t
    case "SOA" => [("mname", NameField), ("rname", NameField), ("serial", Uint32), ("refresh", TtlField),
                   ("retry", TtlField), ("expire", TtlField), ("minimum", TtlField)]
    case "A" => [("ip4_addr", Ip4)]
    case "AAAA" => [("ip6_addr", Ip6)]
    case "NS" => [("nsdname", NameField)]
    case "MX" => [("preference", Uint16), ("exchange", NameField)]
    case "CNAME" => [("cname", NameField)]
    case "DNAME" => [("dname", NameField)]
    case "PTR" => [("dname", NameField)]
    case "NAPTR" => [("naptr_order", Uint16), ("preference", Uint16), ("flags", Quoted), ("services", Quoted),
                     ("naptr_regexp", Quoted), ("replacement", NameField)]
    case "SRV" => [("priority", Uint16), ("weight", Uint16), ("port", Uint16), ("target", NameField)]
    case "HINFO" => [("cpu", Quoted), ("os", Quoted)]
    case "AFSDB" => [("subtype", Int16), ("hostname", NameField)]
    case "CAA" => [("flags", Octet), ("tag", LowerAlnum), ("contents", AnyText)]
    case "CERT" => [("certificate_type", Uint16), ("key_tag", Uint16), ("algorithm", Octet), ("certificate", Base64Rest)]
    case "CSYNC" => [("soa_serial", Uint32), ("flags", Uint16), ("type_bitmap", BitmapRest)]
    case "DHCID" => [("contents", Base64Rest)]
    case "TXT" => [("txt", TxtRest)]
    case "EUI48" => [("eui48", Eui48)]
    case "EUI64" => [("eui64", Eui64)]
    case "SVCB" => [("priority", Uint16), ("target", NameField), ("svcparams", SvcRest)]
    case "HTTPS" => [("priority", Uint16), ("target", NameField), ("svcparams", SvcRest)]
    case "IPSECKEY" => [("ipseckey", IpsecRest)]
    case "KX" => [("preference", Uint16), ("exchanger", NameField)]
    case "LOC" => [("coordinates", PolarRest)]
    case "OPENPGPKEY" => [("pgpkey", Base64Rest)]
    case "SSHFP" => [("algorithm", Octet), ("fp_type", Octet), ("fingerprint", HexRest)]
    case "TLSA" => [("certifcate_usage", Octet), ("selector", Octet), ("matching_type", Octet),
                    ("certificate_association", HexRest)]
    case "URI" => [("priority", Uint16), ("weight", Uint16), ("target", Quoted)]
    case "ZONEMD" => [("soa_serial", Uint32), ("scheme", Octet), ("algorithm", Octet), ("digest", HexRest)]
    case _ => []
  }

  /** supported_types and record_fields list the same types. */
  predicate Supported(t: string) {
    FieldsOf(t) != []
  }

  // ---- Values ----

  datatype IpsecKey = IpsecKey(precedence: int, algorithm: int, gatewayType: int, gateway: Option<string>, publicKey: string)

  datatype Param = Flag | Number(n: int) | Single(s: string) | List(parts: seq<string>)

  datatype Value =
    | Num(n: int)
    | Chars(s: string)
    | Words(ws: seq<string>)
    | Strings(ss: seq<string>)
    | Key(key: IpsecKey)
    | Params(params: map<string, Param>)

  type Data = map<string, Value>

  predicate HasValue(t: Token) {
    t.At? || t.Str? || t.Word?
  }

  predicate AllHaveValues(ts: seq<Token>) {
    forall i :: 0 <= i < |ts| ==> HasValue(ts[i])
  }

  function ValueText(t: Token): string
    requires HasValue(t)
  {
    t.Value().value
  }

  function Texts(ts: seq<Token>): (r: seq<string>)
    requires AllHaveValues(ts)
    ensures |r| == |ts| && forall i :: 0 <= i < |r| ==> r[i] == ValueText(ts[i])
  {
    seq(|ts|, i requires 0 <= i < |ts| => ValueText(ts[i]))
  }

  // ---- Fields of one token ----

  /** form_name on a name that is not empty; None when a relative name finds no origin. */
  function FormName(origin: Option<string>, n: string): Option<string>
    requires n != ""
  {
    if n[|n|-1] == '.' then Some(n)
    else match origin
         case None => None
         case Some(o) => Some(n + "." + o)
  }

  function Check(ok: bool, v: Value): Option<Value> {
    if ok then Some(v) else None
  }

  /** The value of a field that takes one token; None is the exception. */
  function FieldValue(origin: Option<string>, ft: FieldType, t: Token, c: Checks): Option<Value>
    requires !TakesRest(ft) && HasValue(t)
  {
    var s := ValueText(t);
    match ft
    case NameField =>
      (if s == "" || FormName(origin, s).None? then None
       else Check(IsFqdn(FormName(origin, s).value), Chars(FormName(origin, s).value)))
    case Uint16 => if ValidUint16(s) then Some(Num(PyInt(s).value)) else None
    case Uint32 => if ValidUint32(s) then Some(Num(PyInt(s).value)) else None
    case Int16 => if ValidInt16(s) then Some(Num(PyInt(s).value)) else None
    case Octet => if ValidOctet(s) then Some(Num(PyInt(s).value)) else None
    case TtlField => if TtlOf(s).Some? then Some(Num(TtlOf(s).value)) else None
    case Quoted => Check(t.Str?, Chars(s))
    case Ip4 => Check(c.ip4(s), Chars(s))
    case Ip6 => Check(c.ip6(s), Chars(s))
    case AnyText => Some(Chars(s))
    case LowerAlnum => Check(IsLowerAlnum(s), Chars(s))
    case Eui48 => Check(ValidEui(s, 6), Chars(s))
    case Eui64 => Check(ValidEui(s, 8), Chars(s))
  }

  // ---- Fields that take the rest ----

  predicate AllTxt(ts: seq<Token>) {
    forall i :: 0 <= i < |ts| ==> ts[i].Str? && |ts[i].text| <= 255
  }

  /** get_txt. None is the exception. */
  method GetTxt(ts: seq<Token>) returns (r: Option<seq<string>>)
    requires AllHaveValues(ts)
    ensures r == if AllTxt(ts) then Some(Texts(ts)) else None
  {
    var strings := [];
    var i := 0;
    while i < |ts|
      invariant 0 <= i <= |ts| && AllTxt(ts[..i]) && strings == Texts(ts)[..i]
    {
      if !ts[i].Str? {
        return None;
      }
      if |ts[i].text| > 255 {
        return None;
      }
      strings := strings + [ts[i].text];
      i := i + 1;
    }
    assert ts[..i] == ts && Texts(ts)[..i] == Texts(ts);
    r := Some(strings);
  }

  predicate AllTypes(ts: seq<string>) {
    forall i :: 0 <= i < |ts| ==> Supported(ts[i])
  }

  method GetBitmap(ts: seq<string>) returns (r: Option<seq<string>>)
    ensures r == if AllTypes(ts) then Some(ts) else None
  {
    var v := [];
    var i := 0;
    while i < |ts|
      invariant 0 <= i <= |ts| && AllTypes(ts[..i]) && v == ts[..i]
    {
      if FieldsOf(ts[i]) == [] {
        return None;
      }
      v := v + [ts[i]];
      i := i + 1;
    }
    assert ts[..i] == ts;
    r := Some(v);
  }

  function Concat(ts: seq<string>): string {
    if ts == [] then "" else Concat(ts[..|ts|-1]) + ts[|ts|-1]
  }

  /** The loop shared by get_base64 and get_hex. */
  method Gather(ts: seq<string>) returns (v: string)
    ensures v == Concat(ts)
  {
    v := "";
    var i := 0;
    while i < |ts|
      invariant 0 <= i <= |ts| && v == Concat(ts[..i])
    {
      assert ts[..i+1][..i] == ts[..i];
      v := v + ts[i];
      i := i + 1;
    }
    assert ts[..i] == ts;
  }

  function KeyOf(ts: seq<string>, c: Checks): Option<IpsecKey> {
    if |ts| < 5 then None
    else
      var p, a, g := PyInt(ts[0]), PyInt(ts[1]), PyInt(ts[2]);
      if p.None? || a.None? || g.None? || !c.base64(Concat(ts[4..])) then None
      else Some(IpsecKey(p.value, a.value, g.value, if g.value == 0 then None else Some(ts[3]), Concat(ts[4..])))
  }

  /** get_ipseckey. None is the exception. */
  method GetIpseckey(ts: seq<string>, c: Checks) returns (r: Option<IpsecKey>)
    ensures r == KeyOf(ts, c)
  {
    if |ts| < 5 {
      return None;
    }
    var p, a, g := PyInt(ts[0]), PyInt(ts[1]), PyInt(ts[2]);
    if p.None? || a.None? || g.None? {
      return None;
    }
    var gateway := None;
    if g.value != 0 {
      gateway := Some(ts[3]);
    }
    var key := Gather(ts[4..]);
    if !c.base64(key) {
      return None;
    }
    r := Some(IpsecKey(p.value, a.value, g.value, gateway, key));
  }

  /** Where a character first stands in a string; the length when it does not. */
  function Find(s: string, c: char): (i: nat)
    ensures i <= |s| && (i < |s| ==> s[i] == c) && c !in s[..i]
  {
    if s == "" || s[0] == c then 0
    else
      var i := Find(s[1..], c);
      assert s[..1+i] == [s[0]] + s[1..][..i];
      1 + i
  }

  const NO_DEFAULT_ALPN := "no-default-alpn"

  predicate IsListKey(key: string) {
    key == "alpn" || key == "mandatory" || key == "ipv4hint" || key == "ipv6hint"
  }

  function NamedParam(key: string, v: string): Option<(string, Param)> {
    if key == "port" then (if PyInt(v).None? then None else Some((key, Number(PyInt(v).value))))
    else if key == "ech" then Some((key, Single(v)))
    else if IsListKey(key) then Some((key, List(Split(v, ','))))
    else None
  }

  /** What one token adds to the service parameters; None is the exception. */
  function ParamOf(s: string): Option<(string, Param)> {
    var i := Find(s, '=');
    if s == NO_DEFAULT_ALPN then Some((s, Flag))
    else if i == |s| then None
    else NamedParam(s[..i], Without(s[i+1..], '"'))
  }

  function ParamsOf(ts: seq<string>): Option<map<string, Param>> {
    if ts == [] then Some(map[])
    else
      match ParamsOf(ts[..|ts|-1])
      case None => None
      case Some(m) =>
        match ParamOf(ts[|ts|-1])
        case None => None
        case Some(p) => Some(m[p.0 := p.1])
  }

  lemma {:induction false} NoParams(ts: seq<string>, i: nat)
    requires i < |ts| && ParamsOf(ts[..i]).Some? && ParamOf(ts[i]).None?
    ensures ParamsOf(ts).None?
  {
    if i == |ts| - 1 {
    } else {
      assert ts[..|ts|-1][..i] == ts[..i];
      NoParams(ts[..|ts|-1], i);
    }
  }

  /** get_svcparams. None is the exception. */
  method GetSvcparams(ts: seq<string>) returns (r: Option<map<string, Param>>)
    ensures r == ParamsOf(ts)
  {
    var res: map<string, Param> := map[];
    var i := 0;
    while i < |ts|
      invariant 0 <= i <= |ts| && ParamsOf(ts[..i]) == Some(res)
    {
      assert ts[..i+1][..i] == ts[..i];
      if ts[i] == NO_DEFAULT_ALPN {
        res := res[NO_DEFAULT_ALPN := Flag];
      } else {
        var e := Find(ts[i], '=');
        if e == |ts[i]| {
          NoParams(ts, i);
          return None;
        }
        var key, value := ts[i][..e], Without(ts[i][e+1..], '"');
        if key == "port" {
          if PyInt(value).None? {
            NoParams(ts, i);
            return None;
          }
          res := res[key := Number(PyInt(value).value)];
        } else if key == "ech" {
          res := res[key := Single(value)];
        } else if IsListKey(key) {
          res := res[key := List(Split(value, ','))];
        } else {
          NoParams(ts, i);
          return None;
        }
      }
      i := i + 1;
    }
    assert ts[..i] == ts;
    r := Some(res);
  }

  function PolarData(p: Polar): Data {
    map["version" := Num(0), "size" := Num(p.size), "horizontal_precision" := Num(p.horizontal),
        "vertical_precision" := Num(p.vertical), "latitude" := Num(p.latitude), "longitude" := Num(p.longitude),
        "altitude" := Num(p.altitude)]
  }

  /** The data a field that takes the rest makes of it; None is the exception. */
  function RestData(name: string, ft: FieldType, ts: seq<Token>, c: Checks): Option<Data>
    requires TakesRest(ft) && AllHaveValues(ts)
  {
    var ss := Texts(ts);
    match ft
    case TxtRest => if AllTxt(ts) then Some(map[name := Strings(ss)]) else None
    case BitmapRest => if AllTypes(ss) then Some(map[name := Words(ss)]) else None
    case Base64Rest => if c.base64(Concat(ss)) then Some(map[name := Chars(Concat(ss))]) else None
    case HexRest => if ValidHex(Concat(ss)) then Some(map[name := Chars(Concat(ss))]) else None
    case SvcRest => if ParamsOf(ss).Some? then Some(map[name := Params(ParamsOf(ss).value)]) else None
    case IpsecRest => if KeyOf(ss, c).Some? then Some(map[name := Key(KeyOf(ss, c).value)]) else None
    case PolarRest => if PolarOf(ss).Some? then Some(PolarData(PolarOf(ss).value)) else None
  }

  method GetRest(name: string, ft: FieldType, ts: seq<Token>, c: Checks) returns (r: Option<Data>)
    requires TakesRest(ft) && AllHaveValues(ts)
    ensures r == RestData(name, ft, ts, c)
  {
    var ss := Texts(ts);
    r := None;
    match ft
    case TxtRest =>
      var v := GetTxt(ts);
      if v.Some? {
        r := Some(map[name := Strings(v.value)]);
      }
    case BitmapRest =>
      var v := GetBitmap(ss);
      if v.Some? {
        r := Some(map[name := Words(v.value)]);
      }
    case Base64Rest =>
      var v := Gather(ss);
      if c.base64(v) {
        r := Some(map[name := Chars(v)]);
      }
    case HexRest =>
      var v := Gather(ss);
      if ValidHex(v) {
        r := Some(map[name := Chars(v)]);
      }
    case SvcRest =>
      var v := GetSvcparams(ss);
      if v.Some? {
        r := Some(map[name := Params(v.value)]);
      }
    case IpsecRest =>
      var v := GetIpseckey(ss, c);
      if v.Some? {
        r := Some(map[name := Key(v.value)]);
      }
    case PolarRest =>
      var v := GetPolar(ss);
      if v.Some? {
        r := Some(PolarData(v.value));
      }
  }

  // ---- All fields ----

  /** The data the tokens give the fields: one token each, all that are left to a field
      that takes the rest, and no token too many or too few otherwise. */
  function DataOf(fields: Fields, origin: Option<string>, ts: seq<Token>, c: Checks): Option<Data>
    requires AllHaveValues(ts)
  {
    if fields == [] then (if ts == [] then Some(map[]) else None)
    else if TakesRest(fields[0].1) then RestData(fields[0].0, fields[0].1, ts, c)
    else if ts == [] then None
    else
      match FieldValue(origin, fields[0].1, ts[0], c)
      case None => None
      case Some(v) => Joined(map[fields[0].0 := v], DataOf(fields[1..], origin, ts[1..], c))
  }

  function Joined(m: Data, r: Option<Data>): Option<Data> {
    match r
    case None => None
    case Some(n) => Some(m + n)
  }

  lemma JoinedJoined(m: Data, n: Data, r: Option<Data>)
    ensures Joined(m, Joined(n, r)) == Joined(m + n, r)
  {
    if r.Some? {
      assert m + (n + r.value) == (m + n) + r.value;
    }
  }

  /** The data a record of the given type has; None is the exception. */
  function RdataOf(rtype: string, origin: Option<string>, ts: seq<Token>, c: Checks): Option<Data>
    requires AllHaveValues(ts)
  {
    if Supported(rtype) then DataOf(FieldsOf(rtype), origin, ts, c) else None
  }

  /** parse_rdata: fills the record's data field by field. None is the exception. */
  method ParseRdata(rtype: string, origin: Option<string>, ts: seq<Token>, c: Checks) returns (r: Option<Data>)
    requires AllHaveValues(ts)
    ensures r == RdataOf(rtype, origin, ts, c)
  {
    var fields := FieldsOf(rtype);
    if fields == [] {
      return None;
    }
    var res: Data := map[];
    JoinedNothing(DataOf(fields, origin, ts, c));
    var n := 0;
    while n < |fields|
      invariant 0 <= n <= |fields| && n <= |ts|
      invariant DataOf(fields, origin, ts, c) == Joined(res, DataOf(fields[n..], origin, ts[n..], c))
    {
      var (name, ft) := fields[n];
      assert fields[n..][1..] == fields[n+1..];
      if TakesRest(ft) {
        var rest := GetRest(name, ft, ts[n..], c);
        return Joined(res, rest);
      }
      if n >= |ts| {
        return None;
      }
      assert ts[n..][1..] == ts[n+1..];
      var v := FieldValue(origin, ft, ts[n], c);
      if v.None? {
        return None;
      }
      JoinedJoined(res, map[name := v.value], DataOf(fields[n+1..], origin, ts[n+1..], c));
      res := res + map[name := v.value];
      n := n + 1;
    }
    assert fields[n..] == [] && (ts[n..] == [] <==> |ts| == |fields|);
    if |ts| != |fields| {
      return None;
    }
    assert res + map[] == res;
    r := Some(res);
  }

  lemma JoinedNothing(r: Option<Data>)
    ensures Joined(map[], r) == r
  {
    if r.Some? {
      assert map[] + r.value == r.value;
    }
  }
}
