/** TTLs, numbers and names in zone files. */
module ZoneUtil {
  import opened Dns
  import opened Text

  const MAX_TTL: nat := 0x1_0000_0000 - 1

  // ---- TTLs ----

  function LeadingDigits(s: string): (k: nat)
    ensures k <= |s| && AllDigits(s[..k])
    ensures k < |s| ==> !IsDigit(s[k])
  {
    if s == "" || !IsDigit(s[0]) then 0
    else
      var k := LeadingDigits(s[1..]);
      assert s[..1+k] == [s[0]] + s[1..][..k];
      1 + k
  }

  /** The seconds a unit stands for. There is no unit for seconds. */
  function Unit(u: string): Option<nat> {
    if u == "" then Some(1)
    else if u == "m" then Some(60)
    else if u == "h" then Some(60 * 60)
    else if u == "d" then Some(60 * 60 * 24)
    else if u == "w" then Some(60 * 60 * 24 * 7)
    else None
  }

  /** The seconds a TTL denotes: digits and at most one unit, 32 bits in all. */
  function TtlOf(s: string): Option<nat> {
    var l := Lower(s);
    var k := LeadingDigits(l);
    if k == 0 || Unit(l[k..]).None? then None
    else
      var n := ValueOf(l[..k]) * Unit(l[k..]).value;
      if n > MAX_TTL then None else Some(n)
  }

  /** translate_ttl. None is the exception. */
  method TranslateTtl(text: string) returns (r: Option<nat>)
    ensures r == TtlOf(text)
  {
    var s := Lower(text);
    ghost var l := s;
    var numberPart := "";
    while |s| > 0
      invariant |numberPart| <= |l| && numberPart == l[..|numberPart|] && s == l[|numberPart|..]
      invariant AllDigits(numberPart)
      invariant LeadingDigits(l) == |numberPart| + LeadingDigits(s)
      decreases |s|
    {
      if IsDigit(s[0]) {
        assert l[..|numberPart|+1] == numberPart + [s[0]];
        numberPart := numberPart + [s[0]];
        s := s[1..];
      } else {
        break;
      }
    }
    if numberPart == "" {
      return None;
    }
    var number := ValueOf(numberPart);
    if s == "" {
    } else if s == "m" {
      number := number * 60;
    } else if s == "h" {
      number := number * (60 * 60);
    } else if s == "d" {
      number := number * (60 * 60 * 24);
    } else if s == "w" {
      number := number * (60 * 60 * 24 * 7);
    } else {
      return None;
    }
    if number > MAX_TTL {
      return None;
    }
    r := Some(number);
  }

  lemma {:induction false} AllLeadingDigits(s: string)
    requires AllDigits(s)
    ensures LeadingDigits(s) == |s|
  {
    if s != "" {
      AllLeadingDigits(s[1..]);
    }
  }

  /** A printed number is read as a TTL exactly when it fits 32 bits. */
  lemma TtlOfPrinted(n: nat)
    ensures TtlOf(Decimal(n)) == if n <= MAX_TTL then Some(n) else None
  {
    var d := Decimal(n);
    LowerOfDigits(d);
    AllLeadingDigits(d);
    DecimalRoundTrip(n);
    assert d[..|d|] == d && d[|d|..] == "";
  }

  lemma {:induction false} LowerAt(s: string)
    ensures forall i :: 0 <= i < |s| ==> Lower(s)[i] == ToLower(s[i])
  {
    if s != "" {
      LowerAt(s[1..]);
    }
  }

  lemma {:induction false} LeadingDigitsAre(s: string, a: string, b: string)
    requires s == a + b && AllDigits(a) && (b != "" ==> !IsDigit(b[0]))
    ensures LeadingDigits(s) == |a|
    decreases |a|
  {
    if a != "" {
      assert s[0] == a[0] && s[1..] == a[1..] + b;
      LeadingDigitsAre(s[1..], a[1..], b);
    } else {
      assert s == b;
    }
  }

  lemma {:induction false} LowerConcat(a: string, b: string)
    ensures Lower(a + b) == Lower(a) + Lower(b)
  {
    if a == "" {
      assert a + b == b;
    } else {
      assert (a + b)[0] == a[0] && (a + b)[1..] == a[1..] + b;
      LowerConcat(a[1..], b);
    }
  }

  /** Lower case keeps digits and what follows them apart. */
  lemma LowerSplits(a: string, b: string)
    requires AllDigits(a) && (b != "" ==> !IsDigit(b[0]))
    ensures Lower(a + b) == a + Lower(b) && LeadingDigits(Lower(a + b)) == |a|
  {
    LowerConcat(a, b);
    LowerOfDigits(a);
    LeadingDigitsAre(a + Lower(b), a, Lower(b));
  }

  lemma UnitOf(u: string)
    ensures Unit(Lower(u)) ==
            if u == "" then Some(1)
            else if u in ["m", "M"] then Some(60)
            else if u in ["h", "H"] then Some(3600)
            else if u in ["d", "D"] then Some(86_400)
            else if u in ["w", "W"] then Some(604_800)
            else None
  {
    LowerAt(u);
    if |u| == 1 {
      assert u == [u[0]] && Lower(u) == [ToLower(u[0])];
    }
  }

  /** A TTL is a number of seconds, minutes, hours, days or weeks, below 2^32 seconds in all. */
  lemma TtlInNumbers(digits: string, u: string)
    requires AllDigits(digits) && (u != "" ==> !IsDigit(u[0]))
    ensures var unit := if u == "" then 1 else if u in ["m", "M"] then 60 else if u in ["h", "H"] then 3600
                        else if u in ["d", "D"] then 86_400 else if u in ["w", "W"] then 604_800 else 0;
            TtlOf(digits + u) == if digits != "" && unit > 0 && ValueOf(digits) * unit <= 4_294_967_295
                                 then Some(ValueOf(digits) * unit) else None
  {
    LowerSplits(digits, u);
    UnitOf(u);
    var l := digits + Lower(u);
    assert l[..|digits|] == digits && l[|digits|..] == Lower(u);
  }

  // ---- Numbers ----

  predicate InRange(s: string, low: int, high: int) {
    PyInt(s).Some? && low <= PyInt(s).value <= high
  }

  predicate ValidOctet(s: string) {
    InRange(s, 0, 255)
  }

  predicate ValidInt16(s: string) {
    InRange(s, -32768, 32767)
  }

  /** The source admits 65536. */
  predicate ValidUint16(s: string) {
    InRange(s, 0, 65536)
  }

  predicate ValidUint32(s: string) {
    InRange(s, 0, 0x1_0000_0000 - 1)
  }

  // ---- Names and other words ----

  predicate NameChar(c: char) {
    IsAlnum(c) || c == '-' || c == '.' || c == '_'
  }

  predicate IsFqdn(s: string) {
    && s != "" && s[|s|-1] == '.' && |s| <= 254 && |Split(s, '.')| <= 128
    && forall i :: 0 <= i < |s| ==> NameChar(s[i])
  }

  /** valid_fqdn; false is the exception. */
  method ValidFqdn(s: string) returns (ok: bool)
    ensures ok == IsFqdn(s)
  {
    if s == "" {
      return false;
    }
    var i := 0;
    while i < |s|
      invariant 0 <= i <= |s| && forall k :: 0 <= k < i ==> NameChar(s[k])
    {
      if !IsAlnum(s[i]) && s[i] != '-' && s[i] != '.' && s[i] != '_' {
        return false;
      }
      i := i + 1;
    }
    if s[|s|-1] != '.' {
      return false;
    }
    if |s| > 254 {
      return false;
    }
    if |Split(s, '.')| > 128 {
      return false;
    }
    ok := true;
  }

  function Repeat(c: char, n: nat): (s: string)
    ensures |s| == n && forall i :: 0 <= i < n ==> s[i] == c
  {
    seq(n, _ => c)
  }

  lemma {:induction false} SplitDots(n: nat)
    ensures |Split(Repeat('.', n), '.')| == n + 1
  {
    if n > 0 {
      SplitDots(n - 1);
      assert Repeat('.', n)[1..] == Repeat('.', n - 1);
    }
  }

  /** The limits in numbers: 254 characters with the final dot, whatever the length of a
      label, and 128 parts, empty ones and the one behind that dot included. */
  lemma NameLimits(n: nat)
    ensures IsFqdn(Repeat('a', n) + ".") <==> n <= 253
    ensures IsFqdn(Repeat('.', n)) <==> 1 <= n <= 127
  {
    LabelAndDot(Repeat('a', n));
    SplitDots(n);
  }

  /** Names are made of letters, digits, hyphens and underscores between dots. */
  lemma NameCharacters(c: char)
    requires c != '.'
    ensures IsFqdn([c] + ".") <==> 'a' <= c <= 'z' || 'A' <= c <= 'Z' || '0' <= c <= '9' || c == '-' || c == '_'
  {
    LabelAndDot([c]);
    assert ([c] + ".")[0] == c && ([c] + ".")[1] == '.';
  }

  lemma LabelAndDot(l: string)
    requires '.' !in l
    ensures |Split(l + ".", '.')| == 2
  {
    assert Split(".", '.') == [""] + Split("", '.') by {
      assert "."[1..] == "";
    }
    SplitHead(l, ".", '.');
  }

  predicate IsHexDigit(c: char) {
    IsDigit(c) || 'a' <= c <= 'f' || 'A' <= c <= 'F'
  }

  predicate AllHex(s: string) {
    forall i :: 0 <= i < |s| ==> IsHexDigit(s[i])
  }

  predicate ValidHex(s: string) {
    |s| % 2 == 0 && AllHex(s)
  }

  /** An EUI of the given number of octets, written as hex pairs between hyphens. */
  predicate ValidEui(s: string, octets: nat) {
    && |s| == 3 * octets - 1
    && var bits := Split(s, '-');
       |bits| == octets && forall i :: 0 <= i < |bits| ==> |bits[i]| == 2 && AllHex(bits[i])
  }

  // ---- Hexadecimal text ----

  function HexValue(c: char): Option<nat> {
    if '0' <= c <= '9' then Some(c as int - '0' as int)
    else if 'a' <= c <= 'f' then Some(10 + c as int - 'a' as int)
    else if 'A' <= c <= 'F' then Some(10 + c as int - 'A' as int)
    else None
  }

  /** The octets a string of hex pairs stands for. */
  function Octets(s: string): Option<seq<nat>> {
    if s == "" then Some([])
    else if |s| == 1 || HexValue(s[0]).None? || HexValue(s[1]).None? then None
    else
      match Octets(s[2..])
      case None => None
      case Some(more) => Some([16 * HexValue(s[0]).value + HexValue(s[1]).value] + more)
  }

  /** Hex text is valid exactly when it can be decoded, to half as many octets. */
  lemma {:induction false} HexIsOctets(s: string)
    ensures ValidHex(s) <==> Octets(s).Some?
    ensures Octets(s).Some? ==>
              |Octets(s).value| * 2 == |s| && forall i :: 0 <= i < |Octets(s).value| ==> Octets(s).value[i] < 256
  {
    if |s| > 1 {
      HexIsOctets(s[2..]);
      assert s == [s[0], s[1]] + s[2..];
      if ValidHex(s) {
        assert AllHex(s[2..]);
      }
    }
  }

  lemma {:induction false} HyphensBetween(bits: seq<string>)
    requires bits != [] && forall i :: 0 <= i < |bits| ==> |bits[i]| == 2
    ensures |Join(bits, "-")| == 3 * |bits| - 1
  {
    if |bits| > 1 {
      HyphensBetween(bits[1..]);
    }
  }

  lemma JoinLonger(c: char, parts: seq<string>, sep: string)
    requires parts != []
    ensures Join([[c] + parts[0]] + parts[1..], sep) == [c] + Join(parts, sep)
    ensures Join([""] + parts, sep) == sep + Join(parts, sep)
  {
    var longer := [[c] + parts[0]] + parts[1..];
    assert longer[1..] == parts[1..] && longer[0] == [c] + parts[0];
    if |parts| > 1 {
      assert [c] + parts[0] + sep + Join(parts[1..], sep) == [c] + (parts[0] + sep + Join(parts[1..], sep));
    }
    assert ([""] + parts)[1..] == parts;
    assert "" + sep + Join(parts, sep) == sep + Join(parts, sep);
  }

  lemma {:induction false} JoinSplit(s: string, sep: char)
    ensures Join(Split(s, sep), [sep]) == s
  {
    if s != "" {
      JoinSplit(s[1..], sep);
      JoinLonger(s[0], Split(s[1..], sep), [sep]);
      assert s == [s[0]] + s[1..];
    }
  }

  /** An EUI is one octet in hex after the other with hyphens between them. */
  lemma EuiIsOctets(s: string, octets: nat)
    requires octets > 0
    ensures ValidEui(s, octets) <==>
              exists bits: seq<string> ::
                |bits| == octets && s == Join(bits, "-") && forall i :: 0 <= i < |bits| ==> |bits[i]| == 2 && Octets(bits[i]).Some?
  {
    if ValidEui(s, octets) {
      var bits := Split(s, '-');
      JoinSplit(s, '-');
      forall i | 0 <= i < |bits|
        ensures Octets(bits[i]).Some?
      {
        HexIsOctets(bits[i]);
      }
    }
    if bits: seq<string> :| |bits| == octets && s == Join(bits, "-") && forall i :: 0 <= i < |bits| ==> |bits[i]| == 2 && Octets(bits[i]).Some? {
      forall i | 0 <= i < |bits|
        ensures '-' !in bits[i] && AllHex(bits[i])
      {
        HexIsOctets(bits[i]);
      }
      SplitJoin(bits, '-');
      HyphensBetween(bits);
    }
  }

  /** is_lower_alnum tests islower and isalnum of every character, so digits fail. */
  predicate IsLowerAlnum(s: string) {
    forall i :: 0 <= i < |s| ==> IsLower(s[i])
  }

  /** So the tag of a CAA record may hold nothing but lower-case letters, though section 4.1
      of RFC 8659 admits digits. */
  lemma TagsHaveNoDigits(a: string, c: char, b: string)
    requires c < 'a' || c > 'z'
    ensures !IsLowerAlnum(a + [c] + b)
  {
    assert (a + [c] + b)[|a|] == c;
  }

  /** Checks left to Python's libraries: ipaddress and base64. */
  datatype Checks = Checks(ip4: string -> bool, ip6: string -> bool, base64: string -> bool)
}
