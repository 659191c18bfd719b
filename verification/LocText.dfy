/** The text of LOC records: how the dump script prints coordinates, altitude and sizes,
    and how the parser reads them. */
module LocText {
  import opened Dns
  import opened Text
  import opened ZoneUtil
  import opened LocCodec

  // ---- Decimal fractions ----

  /** The digits of n, at least one before the last k. */
  function Padded(n: nat, k: nat): (s: string)
    ensures |s| > k && AllDigits(s)
  {
    if k == 0 then Decimal(n) else Padded(n / 10, k - 1) + [DigitChar(n % 10)]
  }

  lemma {:induction false} PaddedRoundTrip(n: nat, k: nat)
    ensures ValueOf(Padded(n, k)) == n
  {
    if k > 0 {
      PaddedRoundTrip(n / 10, k - 1);
      var s := Padded(n, k);
      assert s[..|s|-1] == Padded(n / 10, k - 1);
    } else {
      DecimalRoundTrip(n);
    }
  }

  /** How '%.kf' prints n / 10^k. */
  function Fixed(n: int, k: nat): string {
    if n < 0 then ['-'] + FixedDigits(-n, k) else FixedDigits(n, k)
  }

  function FixedDigits(n: nat, k: nat): string {
    var s := Padded(n, k);
    s[..|s|-k] + "." + s[|s|-k..]
  }

  /** x divided by ten k times. */
  function Unshift(x: real, k: nat): real {
    if k == 0 then x else Unshift(x, k - 1) / 10.0
  }

  lemma UnshiftTwoThree(x: real)
    ensures Unshift(x, 2) == x / 100.0 && Unshift(x, 3) == x / 1000.0
  {
    assert Unshift(x, 1) == x / 10.0;
    assert Unshift(x, 2) == Unshift(x, 1) / 10.0;
    assert Unshift(x, 3) == Unshift(x, 2) / 10.0;
  }

  /** What float() makes of plain decimals: digits, with at most one point among them. */
  function FloatDigits(s: string): Option<real> {
    var k := LeadingDigits(s);
    if k == |s| then (if k == 0 then None else Some(ValueOf(s[..k]) as real))
    else if s[k] == '.' && AllDigits(s[k+1..]) && |s| > 1 then
      Some(Unshift(ValueOf(s[..k] + s[k+1..]) as real, |s| - k - 1))
    else None
  }

  function SignedFloat(t: string): Option<real> {
    if t == "" then None
    else if t[0] == '-' then
      match FloatDigits(t[1..])
      case None => None
      case Some(v) => Some(-v)
    else FloatDigits(if t[0] == '+' then t[1..] else t)
  }

  function PyFloat(s: string): Option<real> {
    SignedFloat(StripRight(StripLeft(s)))
  }

  lemma {:induction false} LeadingThenPoint(a: string, b: string)
    requires AllDigits(a)
    ensures LeadingDigits(a + "." + b) == |a|
  {
    var s := a + "." + b;
    if a != "" {
      assert s[1..] == a[1..] + "." + b && s[0] == a[0];
      LeadingThenPoint(a[1..], b);
    }
  }

  lemma FloatOfParts(a: string, b: string)
    requires AllDigits(a) && AllDigits(b) && a != ""
    ensures AllDigits(a + b)
    ensures FloatDigits(a + "." + b) == Some(Unshift(ValueOf(a + b) as real, |b|))
  {
    LeadingThenPoint(a, b);
    var s := a + "." + b;
    assert s[..|a|] == a && s[|a|+1..] == b && s[|a|] == '.';
  }

  lemma SplitDigits(p: string, k: nat)
    requires AllDigits(p) && k < |p|
    ensures p[..|p|-k] + p[|p|-k..] == p && |p[|p|-k..]| == k && p[..|p|-k] != ""
    ensures AllDigits(p[..|p|-k]) && AllDigits(p[|p|-k..])
  {
  }

  lemma FloatOfSplit(p: string, k: nat, a: string, b: string)
    requires AllDigits(p) && k < |p| && a == p[..|p|-k] && b == p[|p|-k..]
    ensures FloatDigits(a + "." + b) == Some(Unshift(ValueOf(p) as real, k))
  {
    SplitDigits(p, k);
    FloatOfParts(a, b);
  }

  /** A printed decimal fraction is read back exactly. */
  lemma FloatOfFixed(n: nat, k: nat)
    ensures FloatDigits(FixedDigits(n, k)) == Some(Unshift(n as real, k))
  {
    var p := Padded(n, k);
    PaddedRoundTrip(n, k);
    FloatOfSplit(p, k, p[..|p|-k], p[|p|-k..]);
  }

  lemma FloatOfDecimal(n: nat)
    ensures FloatDigits(Decimal(n)) == Some(n as real)
  {
    AllLeadingDigits(Decimal(n));
    DecimalRoundTrip(n);
    assert Decimal(n)[..|Decimal(n)|] == Decimal(n);
  }

  /** A string that starts and ends with a digit is not stripped. */
  lemma FloatOfTight(s: string)
    requires s != "" && IsDigit(s[0]) && IsDigit(s[|s|-1])
    ensures PyFloat(s) == FloatDigits(s)
  {
    StripNothing(s);
  }

  lemma FloatOfNegative(s: string, t: string)
    requires s != "" && IsDigit(s[|s|-1]) && t == ['-'] + s
    ensures PyFloat(t) == match FloatDigits(s) case None => None case Some(v) => Some(-v)
  {
    assert t[|t|-1] == s[|s|-1];
    StripNothing(t);
    assert t[1..] == s;
  }

  // ---- Angles ----

  datatype Angle = Angle(next: nat, hemi: string, degrees: real)

  /** A number of whole units, sixtieths or 3600ths of a degree. */
  function Part(v: real, unit: nat): real {
    if unit == 1 then v else if unit == 60 then v / 60.0 else v / 3600.0
  }

  /** The angle whose part counted in `unit`ths of a degree stands at i; `degrees` is what
      the parts before it make. */
  function AngleFrom(ts: seq<string>, i: nat, dirs: seq<string>, degrees: real, unit: nat): Option<Angle>
    requires unit == 1 || unit == 60 || unit == 3600
    decreases 3600 - unit
  {
    if i >= |ts| || PyFloat(ts[i]).None? then None
    else
      var sum := degrees + Part(PyFloat(ts[i]).value, unit);
      if i + 1 >= |ts| then None
      else if ts[i+1] in dirs then Some(Angle(i + 2, Lower(ts[i+1]), sum))
      else if unit == 3600 then None
      else AngleFrom(ts, i + 1, dirs, sum, unit * 60)
  }

  /** extract_angle. None is the exception. */
  method ExtractAngle(ts: seq<string>, start: nat, dirs: seq<string>) returns (r: Option<Angle>)
    ensures r == AngleFrom(ts, start, dirs, 0.0, 1)
  {
    var i := start;
    if i >= |ts| || PyFloat(ts[i]).None? {
      return None;
    }
    var deg := PyFloat(ts[i]).value;
    i := i + 1;
    if i >= |ts| {
      return None;
    }
    if ts[i] in dirs {
      return Some(Angle(i + 1, Lower(ts[i]), deg));
    }
    if PyFloat(ts[i]).None? {
      return None;
    }
    deg := deg + PyFloat(ts[i]).value / 60.0;
    i := i + 1;
    if i >= |ts| {
      return None;
    }
    if ts[i] in dirs {
      return Some(Angle(i + 1, Lower(ts[i]), deg));
    }
    if PyFloat(ts[i]).None? {
      return None;
    }
    deg := deg + PyFloat(ts[i]).value / 3600.0;
    i := i + 1;
    if i < |ts| && ts[i] in dirs {
      return Some(Angle(i + 1, Lower(ts[i]), deg));
    }
    r := None;
  }

  const EQUATOR: int := 0x8000_0000

  function EncodeAngle(degrees: real, hemi: string): int {
    var thousandths := Round(degrees * 3600.0 * 1000.0);
    if hemi == "n" || hemi == "e" then EQUATOR + thousandths else EQUATOR - thousandths
  }

  /** An angle is stored as thousandths of an arc second away from 2^31, rounded, northward
      and eastward counted up. */
  lemma StoredAngle(degrees: real, hemi: string)
    ensures hemi == "n" || hemi == "e" ==>
              -0.5 <= EncodeAngle(degrees, hemi) as real - (2_147_483_648.0 + 3_600_000.0 * degrees) <= 0.5
    ensures hemi != "n" && hemi != "e" ==>
              -0.5 <= EncodeAngle(degrees, hemi) as real - (2_147_483_648.0 - 3_600_000.0 * degrees) <= 0.5
  {
    RoundIsNearest(degrees * 3600.0 * 1000.0);
  }

  /** A coordinate as the dump script takes it apart: whole degrees and minutes,
      thousandths of seconds, and the hemisphere out of [negative, positive]. */
  datatype Coordinate = Coordinate(degrees: nat, minutes: nat, thousandths: nat, hemi: string)

  function CoordinateOf(l: int, negative: string, positive: string): Coordinate {
    var t: nat := if l < EQUATOR then EQUATOR - l else l - EQUATOR;
    Coordinate(t / 3_600_000, t % 3_600_000 / 60_000, t % 3_600_000 % 60_000, if l < EQUATOR then negative else positive)
  }

  /** The words dump_latitude_longitude prints. */
  function CoordinateWords(c: Coordinate): seq<string> {
    [Decimal(c.degrees), Decimal(c.minutes), Fixed(c.thousandths, 3), c.hemi]
  }

  /** dump_latitude_longitude, up to the formatting of the words. */
  method TakeApart(l: int, negative: string, positive: string) returns (c: Coordinate)
    ensures c == CoordinateOf(l, negative, positive)
    ensures 3_600_000 * c.degrees + 60_000 * c.minutes + c.thousandths ==
            if l < 2_147_483_648 then 2_147_483_648 - l else l - 2_147_483_648
    ensures c.minutes < 60 && c.thousandths < 60_000
    ensures c.hemi == if l < 2_147_483_648 then negative else positive
  {
    var offset := l - EQUATOR;
    var seconds := offset as real / 1000.0;
    var hemi;
    if seconds < 0.0 {
      hemi := negative;
      seconds := -seconds;
    } else {
      hemi := positive;
    }
    ghost var t: nat := if offset < 0 then -offset else offset;
    var degrees := (seconds / 3600.0).Floor;
    assert degrees == t / 3_600_000;
    seconds := seconds - degrees as real * 3600.0;
    ghost var u: nat := t % 3_600_000;
    assert seconds == u as real / 1000.0;
    var minutes := (seconds / 60.0).Floor;
    assert minutes == u / 60_000;
    seconds := seconds - minutes as real * 60.0;
    assert seconds * 1000.0 == (u % 60_000) as real;
    RoundOfInt(u % 60_000);
    c := Coordinate(degrees, minutes, Round(seconds * 1000.0), hemi);
  }

  predicate StandsAt(words: seq<string>, ts: seq<string>, i: nat) {
    i + |words| <= |ts| && ts[i..i+|words|] == words
  }

  lemma WordsAreFloats(c: Coordinate)
    ensures PyFloat(Decimal(c.degrees)) == Some(c.degrees as real)
    ensures PyFloat(Decimal(c.minutes)) == Some(c.minutes as real)
    ensures PyFloat(Fixed(c.thousandths, 3)) == Some(c.thousandths as real / 1000.0)
  {
    FloatOfDecimal(c.degrees);
    FloatOfTight(Decimal(c.degrees));
    FloatOfDecimal(c.minutes);
    FloatOfTight(Decimal(c.minutes));
    FloatOfFixed(c.thousandths, 3);
    UnshiftTwoThree(c.thousandths as real);
    FixedIsTight(c.thousandths, 3);
    FloatOfTight(Fixed(c.thousandths, 3));
  }

  lemma FixedIsTight(n: nat, k: nat)
    requires k > 0
    ensures var s := FixedDigits(n, k); IsDigit(s[0]) && IsDigit(s[|s|-1])
  {
    var p := Padded(n, k);
    var s := FixedDigits(n, k);
    assert s[0] == p[0] && s[|s|-1] == p[|p|-1];
  }

  lemma CoordinateParts(l: int, negative: string, positive: string)
    ensures var c := CoordinateOf(l, negative, positive);
            && 3_600_000 * c.degrees + 60_000 * c.minutes + c.thousandths ==
                 (if l < 2_147_483_648 then 2_147_483_648 - l else l - 2_147_483_648)
            && c.minutes < 60 && c.thousandths < 60_000
            && c.hemi == if l < 2_147_483_648 then negative else positive
  {
  }

  /** The words printed for a stored coordinate name its distance from 2^31 thousandths of
      an arc second, and the side it lies on. */
  lemma PrintedCoordinate(l: int, negative: string, positive: string)
    ensures var w := CoordinateWords(CoordinateOf(l, negative, positive));
            && |w| == 4 && PyFloat(w[0]).Some? && PyFloat(w[1]).Some? && PyFloat(w[2]).Some?
            && var (d, m, s) := (PyFloat(w[0]).value, PyFloat(w[1]).value, PyFloat(w[2]).value);
               && d == d.Floor as real && m == m.Floor as real && 0.0 <= m < 60.0 && 0.0 <= s < 60.0
               && 3_600_000.0 * d + 60_000.0 * m + 1000.0 * s ==
                    (if l < 2_147_483_648 then 2_147_483_648 - l else l - 2_147_483_648) as real
               && w[3] == if l < 2_147_483_648 then negative else positive
  {
    var c := CoordinateOf(l, negative, positive);
    WordsAreFloats(c);
    CoordinateParts(l, negative, positive);
  }

  /** Decimal digits and points are no directions. */
  lemma NumbersAreNoDirections(s: string, dirs: seq<string>)
    requires s != "" && IsDigit(s[0])
    requires forall d :: d in dirs ==> |d| == 1 && !IsDigit(d[0])
    ensures s !in dirs
  {
  }

  function DegreesOf(c: Coordinate): real {
    c.degrees as real + c.minutes as real / 60.0 + c.thousandths as real / 1000.0 / 3600.0
  }

  /** A number followed by a direction ends the angle, followed by a number it goes on. */
  lemma AngleStep(ts: seq<string>, i: nat, dirs: seq<string>, degrees: real, unit: nat, v: real)
    requires unit == 1 || unit == 60 || unit == 3600
    requires i + 1 < |ts| && PyFloat(ts[i]) == Some(v)
    ensures ts[i+1] in dirs ==>
              AngleFrom(ts, i, dirs, degrees, unit) == Some(Angle(i + 2, Lower(ts[i+1]), degrees + Part(v, unit)))
    ensures unit < 3600 && ts[i+1] !in dirs ==>
              AngleFrom(ts, i, dirs, degrees, unit) == AngleFrom(ts, i + 1, dirs, degrees + Part(v, unit), unit * 60)
  {
  }

  lemma AngleOfFour(ts: seq<string>, i: nat, dirs: seq<string>, d: real, m: real, s: real)
    requires i + 3 < |ts| && PyFloat(ts[i]) == Some(d) && PyFloat(ts[i+1]) == Some(m) && PyFloat(ts[i+2]) == Some(s)
    requires ts[i+1] !in dirs && ts[i+2] !in dirs && ts[i+3] in dirs
    ensures AngleFrom(ts, i, dirs, 0.0, 1) == Some(Angle(i + 4, Lower(ts[i+3]), d + m / 60.0 + s / 3600.0))
  {
    AngleStep(ts, i, dirs, 0.0, 1, d);
    AngleStep(ts, i + 1, dirs, d, 60, m);
    AngleStep(ts, i + 2, dirs, d + m / 60.0, 3600, s);
  }

  lemma WordsAt(c: Coordinate, ts: seq<string>, i: nat, dirs: seq<string>)
    requires StandsAt(CoordinateWords(c), ts, i)
    requires forall d :: d in dirs ==> |d| == 1 && !IsDigit(d[0])
    ensures ts[i+1] !in dirs && ts[i+2] !in dirs && ts[i+3] == c.hemi
    ensures PyFloat(ts[i]) == Some(c.degrees as real) && PyFloat(ts[i+1]) == Some(c.minutes as real)
    ensures PyFloat(ts[i+2]) == Some(c.thousandths as real / 1000.0)
  {
    var w := ts[i..i+4];
    assert w[0] == ts[i] && w[1] == ts[i+1] && w[2] == ts[i+2] && w[3] == ts[i+3];
    WordsAreFloats(c);
    FixedIsTight(c.thousandths, 3);
    NumbersAreNoDirections(w[1], dirs);
    NumbersAreNoDirections(w[2], dirs);
  }

  /** Degrees, minutes and thousandths of seconds lose nothing. */
  lemma PartsMakeAngle(l: int, negative: string, positive: string)
    requires Lower(negative) == "s" || Lower(negative) == "w"
    requires Lower(positive) == "n" || Lower(positive) == "e"
    ensures var c := CoordinateOf(l, negative, positive);
            EncodeAngle(DegreesOf(c), Lower(c.hemi)) == l
  {
    var c := CoordinateOf(l, negative, positive);
    var t: nat := if l < EQUATOR then EQUATOR - l else l - EQUATOR;
    assert t == 3_600_000 * c.degrees + 60_000 * c.minutes + c.thousandths;
    RoundOfInt(t);
  }

  const NORTH_SOUTH := ["N", "S", "n", "s"]
  const EAST_WEST := ["E", "W", "e", "w"]

  lemma LowerOfLetter(c: char)
    ensures Lower([c]) == [ToLower(c)]
  {
    assert [c][1..] == "";
  }

  // ---- What the words of a LOC line mean ----

  /** From index i on stand k + 1 numbers and then a direction. */
  predicate NamesAngle(ts: seq<string>, i: nat, k: nat, dirs: seq<string>) {
    && k <= 2 && i + k + 1 < |ts| && ts[i+k+1] in dirs
    && (forall j :: i <= j <= i + k ==> PyFloat(ts[j]).Some?)
    && (forall j :: i < j <= i + k ==> ts[j] !in dirs)
  }

  /** Degrees, minutes and seconds in thousandths of an arc second. */
  function Thousandths(ts: seq<string>, i: nat, k: nat, dirs: seq<string>): real
    requires NamesAngle(ts, i, k, dirs)
  {
    3_600_000.0 * PyFloat(ts[i]).value + (if k >= 1 then 60_000.0 * PyFloat(ts[i+1]).value else 0.0) +
    if k >= 2 then 1000.0 * PyFloat(ts[i+2]).value else 0.0
  }

  /** An angle is read exactly when one to three numbers and a direction stand there. */
  lemma AngleIsNamed(ts: seq<string>, i: nat, dirs: seq<string>)
    ensures AngleFrom(ts, i, dirs, 0.0, 1).Some? <==> exists k :: 0 <= k <= 2 && NamesAngle(ts, i, k, dirs)
    ensures forall k :: 0 <= k <= 2 && NamesAngle(ts, i, k, dirs) ==>
              && AngleFrom(ts, i, dirs, 0.0, 1).Some?
              && var a := AngleFrom(ts, i, dirs, 0.0, 1).value;
                 a.next == i + k + 2 && a.hemi == Lower(ts[i+k+1]) && 3_600_000.0 * a.degrees == Thousandths(ts, i, k, dirs)
  {
    if AngleFrom(ts, i, dirs, 0.0, 1).Some? {
      AngleHasShape(ts, i, dirs);
    }
    forall k | 0 <= k <= 2 && NamesAngle(ts, i, k, dirs)
      ensures AngleFrom(ts, i, dirs, 0.0, 1).Some?
      ensures var a := AngleFrom(ts, i, dirs, 0.0, 1).value;
              a.next == i + k + 2 && a.hemi == Lower(ts[i+k+1]) && 3_600_000.0 * a.degrees == Thousandths(ts, i, k, dirs)
    {
      AngleOfShape(ts, i, k, dirs);
    }
  }

  lemma AngleHasShape(ts: seq<string>, i: nat, dirs: seq<string>)
    requires AngleFrom(ts, i, dirs, 0.0, 1).Some?
    ensures NamesAngle(ts, i, 0, dirs) || NamesAngle(ts, i, 1, dirs) || NamesAngle(ts, i, 2, dirs)
  {
    var d := PyFloat(ts[i]).value;
    AngleStep(ts, i, dirs, 0.0, 1, d);
    if ts[i+1] !in dirs {
      var m := PyFloat(ts[i+1]).value;
      AngleStep(ts, i + 1, dirs, d, 60, m);
    }
  }

  lemma AngleOfShape(ts: seq<string>, i: nat, k: nat, dirs: seq<string>)
    requires NamesAngle(ts, i, k, dirs)
    ensures AngleFrom(ts, i, dirs, 0.0, 1).Some?
    ensures var a := AngleFrom(ts, i, dirs, 0.0, 1).value;
            a.next == i + k + 2 && a.hemi == Lower(ts[i+k+1]) && 3_600_000.0 * a.degrees == Thousandths(ts, i, k, dirs)
  {
    var d := PyFloat(ts[i]).value;
    AngleStep(ts, i, dirs, 0.0, 1, d);
    if k >= 1 {
      var m := PyFloat(ts[i+1]).value;
      AngleStep(ts, i + 1, dirs, d, 60, m);
      if k >= 2 {
        AngleStep(ts, i + 2, dirs, d + m / 60.0, 3600, PyFloat(ts[i+2]).value);
      }
    }
  }

  /** The stored number x is `away` thousandths from 2^31, rounded, on the given side. */
  predicate Near(x: int, up: bool, away: real) {
    -0.5 <= x as real - 2_147_483_648.0 - (if up then away else -away) <= 0.5
  }

  /** A latitude or longitude is stored as its thousandths of an arc second away from 2^31,
      up for north and east, down for south and west. */
  lemma AngleInNumbers(ts: seq<string>, i: nat, k: nat, dirs: seq<string>)
    requires dirs == NORTH_SOUTH || dirs == EAST_WEST
    requires NamesAngle(ts, i, k, dirs)
    ensures AngleFrom(ts, i, dirs, 0.0, 1).Some?
    ensures var a := AngleFrom(ts, i, dirs, 0.0, 1).value;
            a.next == i + k + 2 && Near(EncodeAngle(a.degrees, a.hemi), ts[i+k+1] in ["N", "n", "E", "e"], Thousandths(ts, i, k, dirs))
  {
    AngleOfShape(ts, i, k, dirs);
    DirectionLetters(ts[i+k+1]);
    var a := AngleFrom(ts, i, dirs, 0.0, 1).value;
    StoredAngle(a.degrees, a.hemi);
  }

  lemma DirectionLetters(s: string)
    requires s in NORTH_SOUTH || s in EAST_WEST
    ensures Lower(s) == "n" || Lower(s) == "e" <==> s in ["N", "n", "E", "e"]
  {
    LowerOfLetter(s[0]);
    assert s == [s[0]];
  }

  lemma AngleOfWords(c: Coordinate, ts: seq<string>, i: nat, dirs: seq<string>)
    requires StandsAt(CoordinateWords(c), ts, i) && c.hemi in dirs
    requires forall d :: d in dirs ==> |d| == 1 && !IsDigit(d[0])
    ensures AngleFrom(ts, i, dirs, 0.0, 1) == Some(Angle(i + 4, Lower(c.hemi), DegreesOf(c)))
  {
    WordsAt(c, ts, i, dirs);
    AngleOfFour(ts, i, dirs, c.degrees as real, c.minutes as real, c.thousandths as real / 1000.0);
  }

  lemma WordsMakeAngle(l: int, negative: string, positive: string, ts: seq<string>, i: nat, dirs: seq<string>)
    requires StandsAt(CoordinateWords(CoordinateOf(l, negative, positive)), ts, i)
    requires forall d :: d in dirs ==> |d| == 1 && !IsDigit(d[0])
    requires negative in dirs && positive in dirs
    requires Lower(negative) == "s" || Lower(negative) == "w"
    requires Lower(positive) == "n" || Lower(positive) == "e"
    ensures var a := AngleFrom(ts, i, dirs, 0.0, 1);
            a.Some? && a.value.next == i + 4 && EncodeAngle(a.value.degrees, a.value.hemi) == l
  {
    AngleOfWords(CoordinateOf(l, negative, positive), ts, i, dirs);
    PartsMakeAngle(l, negative, positive);
  }

  /** Printing a latitude and reading it back restores it, whatever follows. */
  lemma LatitudeRoundTrip(l: int, ts: seq<string>, i: nat)
    requires StandsAt(CoordinateWords(CoordinateOf(l, "S", "N")), ts, i)
    ensures var a := AngleFrom(ts, i, NORTH_SOUTH, 0.0, 1);
            a.Some? && a.value.next == i + 4 && EncodeAngle(a.value.degrees, a.value.hemi) == l
  {
    LowerOfLetter('S');
    LowerOfLetter('N');
    WordsMakeAngle(l, "S", "N", ts, i, NORTH_SOUTH);
  }

  /** The same for longitudes. */
  lemma LongitudeRoundTrip(l: int, ts: seq<string>, i: nat)
    requires StandsAt(CoordinateWords(CoordinateOf(l, "W", "E")), ts, i)
    ensures var a := AngleFrom(ts, i, EAST_WEST, 0.0, 1);
            a.Some? && a.value.next == i + 4 && EncodeAngle(a.value.degrees, a.value.hemi) == l
  {
    LowerOfLetter('W');
    LowerOfLetter('E');
    WordsMakeAngle(l, "W", "E", ts, i, EAST_WEST);
  }

  // ---- Altitude and sizes ----

  const ALTITUDE_BASE: int := 10_000_000

  /** A number of metres, with or without the unit. */
  function Metres(s: string): Option<real> {
    PyFloat(Without(Without(s, 'm'), 'M'))
  }

  function AltitudeText(altitude: int): string {
    Fixed(altitude - ALTITUDE_BASE, 2) + "m"
  }

  function AltitudeOf(metres: real): int {
    Round(metres * 100.0) + ALTITUDE_BASE
  }

  /** How '%.0fm' prints a size. */
  function SizeText(octet: nat): string {
    Signed(Round(SizeCm(octet) as real / 100.0)) + "m"
  }

  predicate NoUnit(s: string) {
    forall i :: 0 <= i < |s| ==> s[i] != 'm' && s[i] != 'M'
  }

  lemma MetresOfText(s: string)
    requires NoUnit(s)
    ensures Metres(s + "m") == PyFloat(s)
  {
    WithoutConcat(s, "m", 'm');
    WithoutNothing(s, 'm');
    WithoutNothing(s, 'M');
    assert s + Without("m", 'm') == s;
  }

  lemma NumbersHaveNoUnit(n: int, k: nat)
    ensures NoUnit(Signed(n)) && NoUnit(Fixed(n, k))
  {
  }

  lemma FloatOfSigned(n: nat)
    ensures PyFloat(Signed(n)) == Some(n as real)
  {
    FloatOfDecimal(n);
    FloatOfTight(Decimal(n));
  }

  lemma FloatEitherSign(s: string, v: real)
    requires s != "" && IsDigit(s[0]) && IsDigit(s[|s|-1]) && FloatDigits(s) == Some(v)
    ensures PyFloat(s) == Some(v) && PyFloat(['-'] + s) == Some(-v)
  {
    FloatOfTight(s);
    FloatOfNegative(s, ['-'] + s);
  }

  lemma PyFloatOfDigits(a: nat, k: nat, d: string)
    requires k > 0 && d == FixedDigits(a, k)
    ensures PyFloat(d) == Some(Unshift(a as real, k)) && PyFloat(['-'] + d) == Some(-Unshift(a as real, k))
  {
    FloatOfFixed(a, k);
    FixedIsTight(a, k);
    FloatEitherSign(d, Unshift(a as real, k));
  }

  /** A printed decimal fraction, sign included, is read back exactly. */
  lemma PyFloatOfFixed(n: int, k: nat, d: string, s: string)
    requires k > 0 && d == FixedDigits(if n < 0 then -n else n, k) && s == if n < 0 then ['-'] + d else d
    ensures PyFloat(s) == Some(if n < 0 then -Unshift(-n as real, k) else Unshift(n as real, k))
  {
    PyFloatOfDigits(if n < 0 then -n else n, k, d);
  }

  lemma AltitudeIsPrinted(altitude: int, k: nat)
    requires k == 2
    ensures AltitudeText(altitude) == Fixed(altitude - ALTITUDE_BASE, k) + "m"
  {
  }

  lemma MetresOfFixed(n: int, k: nat, text: string)
    requires k > 0 && text == Fixed(n, k) + "m"
    ensures Metres(text) == Some(if n < 0 then -Unshift(-n as real, k) else Unshift(n as real, k))
  {
    NumbersHaveNoUnit(n, k);
    MetresOfText(Fixed(n, k));
    PyFloatOfFixed(n, k, FixedDigits(if n < 0 then -n else n, k), Fixed(n, k));
  }

  /** A printed altitude is the number of metres above -100000 m that is stored in
      centimetres. */
  lemma PrintedAltitude(altitude: int)
    ensures Metres(AltitudeText(altitude)) == Some((altitude - 10_000_000) as real / 100.0)
  {
    var cm, k := altitude - ALTITUDE_BASE, 2;
    AltitudeIsPrinted(altitude, k);
    MetresOfFixed(cm, k, AltitudeText(altitude));
    UnshiftTwoThree(cm as real);
    UnshiftTwoThree(-cm as real);
  }

  /** Reading rounds an altitude to the nearest centimetre above -100000 m. */
  lemma StoredAltitude(metres: real)
    ensures -0.5 <= AltitudeOf(metres) as real - (100.0 * metres + 10_000_000.0) <= 0.5
  {
    RoundIsNearest(metres * 100.0);
  }

  /** Printing an altitude and reading it back restores it. */
  lemma AltitudeRoundTrip(altitude: int)
    ensures Metres(AltitudeText(altitude)).Some?
    ensures AltitudeOf(Metres(AltitudeText(altitude)).value) == altitude
  {
    PrintedAltitude(altitude);
    RoundOfInt(altitude - ALTITUDE_BASE);
  }

  lemma SizeIsPrinted(octet: nat)
    ensures Metres(SizeText(octet)) == Some(Round(SizeCm(octet) as real / 100.0) as real)
  {
    assert SizeCm(octet) as real / 100.0 >= 0.0;
    var w: nat := Round(SizeCm(octet) as real / 100.0);
    NumbersHaveNoUnit(w, 0);
    MetresOfText(Signed(w));
    FloatOfSigned(w);
  }

  /** A printed size is the nearest whole number of metres to the octet's mantissa times ten
      to its exponent centimetres. */
  lemma PrintedSize(octet: nat, m: nat, e: nat)
    requires octet == 16 * m + e && m < 16 && e < 16
    ensures Metres(SizeText(octet)).Some?
    ensures var w := Metres(SizeText(octet)).value;
            && w == w.Floor as real && -50.0 <= 100.0 * w - (m * Pow10(e)) as real <= 50.0
  {
    assert Mantissa(octet) == m && Exponent(octet) == e;
    var x := SizeCm(octet) as real / 100.0;
    RoundIsNearest(x);
    SizeIsPrinted(octet);
  }

  predicate WholeMetres(octet: nat) {
    IsSizeOctet(octet) && Exponent(octet) >= 2
  }

  lemma Hundredfold(m: nat, e: nat)
    requires e >= 2
    ensures m * Pow10(e) == 100 * (m * Pow10(e - 2))
  {
    assert Pow10(e) == 100 * Pow10(e - 2);
  }

  lemma WholeMetresAreExact(octet: nat)
    requires Exponent(octet) >= 2
    ensures Round(SizeCm(octet) as real / 100.0) as real == SizeCm(octet) as real / 100.0
  {
    Hundredfold(Mantissa(octet), Exponent(octet));
    RoundOfInt(Mantissa(octet) * Pow10(Exponent(octet) - 2));
  }

  /** Encoding whole metres never gives an exponent below two. */
  lemma WholeMetresExponent(w: nat)
    ensures var r := SizeOctet(w as real); r.Some? ==> Exponent(r.value) >= 2
  {
    if SizeOctet(w as real).Some? {
      EncodableSizes(w as real);
      ScaleAtMost(w as real * 100.0, 1);
      SizeOctetParts(w as real);
      assert Shift(9.0, 1) == 90.0;
    }
  }

  /** Printing a size and reading it back restores it exactly for valid octets of whole
      metres: the printed form has no decimals. */
  lemma SizeTextRoundTrip(octet: nat)
    requires octet < 256
    ensures Metres(SizeText(octet)).Some?
    ensures SizeOctet(Metres(SizeText(octet)).value) == Some(octet) <==> WholeMetres(octet)
  {
    var w: nat := Round(SizeCm(octet) as real / 100.0);
    SizeIsPrinted(octet);
    if Exponent(octet) >= 2 {
      WholeMetresAreExact(octet);
      SizeRoundTrip(octet);
    } else {
      WholeMetresExponent(w);
    }
  }

  // ---- Whole LOC data ----

  datatype Polar = Polar(size: nat, horizontal: nat, vertical: nat, latitude: int, longitude: int, altitude: int)

  /** A size at index i, or its default when the line ends before it. */
  function SizeAt(ts: seq<string>, i: nat, fallback: real): Option<nat> {
    if i >= |ts| then SizeOctet(fallback)
    else
      match Metres(ts[i])
      case None => None
      case Some(m) => SizeOctet(m)
  }

  /** The LOC data of two angles and the words from index i on. The size has no default. */
  function PolarFrom(ns: Angle, ew: Angle, ts: seq<string>, i: nat): Option<Polar> {
    if i + 1 >= |ts| || Metres(ts[i]).None? then None
    else
      var size, hp, vp := SizeAt(ts, i + 1, 1.0), SizeAt(ts, i + 2, 10000.0), SizeAt(ts, i + 3, 10.0);
      if size.None? || hp.None? || vp.None? then None
      else Some(Polar(size.value, hp.value, vp.value, EncodeAngle(ns.degrees, ns.hemi),
                      EncodeAngle(ew.degrees, ew.hemi), AltitudeOf(Metres(ts[i]).value)))
  }

  /** The LOC data a line of words stands for. */
  function PolarOf(ts: seq<string>): Option<Polar> {
    match AngleFrom(ts, 0, NORTH_SOUTH, 0.0, 1)
    case None => None
    case Some(ns) =>
      match AngleFrom(ts, ns.next, EAST_WEST, 0.0, 1)
      case None => None
      case Some(ew) => PolarFrom(ns, ew, ts, ew.next)
  }

  lemma TenMetres()
    ensures SizeOctet(10.0) == Some(1 * 16 + 3)
  {
    assert Pow10(2) == 100;
    EncodeScaled(10.0, 1, 3);
  }

  lemma TenKilometres()
    ensures SizeOctet(10000.0) == Some(1 * 16 + 6)
  {
    assert Pow10(2) == 100;
    assert Pow10(4) == 10_000;
    EncodeScaled(10000.0, 1, 6);
  }

  /** Precisions that are left out stand for ten kilometres across and ten metres up. */
  lemma MissingPrecisions(ns: Angle, ew: Angle, ts: seq<string>, i: nat)
    requires PolarFrom(ns, ew, ts, i).Some?
    ensures |ts| == i + 2 ==> PolarFrom(ns, ew, ts, i).value.horizontal == 1 * 16 + 6
    ensures |ts| <= i + 3 ==> PolarFrom(ns, ew, ts, i).value.vertical == 1 * 16 + 3
  {
    TenMetres();
    TenKilometres();
  }

  /** A size in metres, or its default when the line ends before it, that can be encoded. */
  predicate SizeFits(ts: seq<string>, i: nat, fallback: real) {
    var m := if i < |ts| then Metres(ts[i]) else Some(fallback);
    m.Some? && 0.5 < m.value * 100.0 <= 9_000_000_000.0
  }

  lemma SizeAtIs(ts: seq<string>, i: nat, fallback: real)
    ensures SizeAt(ts, i, fallback).Some? <==> SizeFits(ts, i, fallback)
  {
    EncodableSizes(if i < |ts| && Metres(ts[i]).Some? then Metres(ts[i]).value else fallback);
  }

  /** Two angles stand at the front, an altitude and a size follow, then perhaps the
      precisions. */
  predicate NamesPolar(ts: seq<string>, j: nat, k: nat) {
    && NamesAngle(ts, 0, j, NORTH_SOUTH) && NamesAngle(ts, j + 2, k, EAST_WEST)
    && j + k + 5 < |ts| && Metres(ts[j+k+4]).Some?
    && SizeFits(ts, j + k + 5, 1.0) && SizeFits(ts, j + k + 6, 10000.0) && SizeFits(ts, j + k + 7, 10.0)
  }

  lemma PolarOfAngles(ts: seq<string>, a: Angle, b: Angle)
    requires AngleFrom(ts, 0, NORTH_SOUTH, 0.0, 1) == Some(a)
    requires AngleFrom(ts, a.next, EAST_WEST, 0.0, 1) == Some(b)
    ensures PolarOf(ts) == PolarFrom(a, b, ts, b.next)
  {
  }

  lemma NamedAngles(ts: seq<string>, j: nat, k: nat, ns: Angle, ew: Angle)
    requires NamesAngle(ts, 0, j, NORTH_SOUTH) && NamesAngle(ts, j + 2, k, EAST_WEST)
    requires AngleFrom(ts, 0, NORTH_SOUTH, 0.0, 1) == Some(ns) && AngleFrom(ts, j + 2, EAST_WEST, 0.0, 1) == Some(ew)
    ensures ns.next == j + 2 && ew.next == j + k + 4
    ensures Near(EncodeAngle(ns.degrees, ns.hemi), ts[j+1] in ["N", "n"], Thousandths(ts, 0, j, NORTH_SOUTH))
    ensures Near(EncodeAngle(ew.degrees, ew.hemi), ts[j+k+3] in ["E", "e"], Thousandths(ts, j + 2, k, EAST_WEST))
  {
    AngleInNumbers(ts, 0, j, NORTH_SOUTH);
    AngleInNumbers(ts, j + 2, k, EAST_WEST);
    EitherWay(ts[j+1], ts[j+k+3]);
  }

  /** The coordinates and the altitude of LOC data are those the line names, in the units of
      RFC 1876. */
  predicate StoredAs(p: Polar, ts: seq<string>, j: nat, k: nat)
    requires NamesPolar(ts, j, k)
  {
    && Near(p.latitude, ts[j+1] in ["N", "n"], Thousandths(ts, 0, j, NORTH_SOUTH))
    && Near(p.longitude, ts[j+k+3] in ["E", "e"], Thousandths(ts, j + 2, k, EAST_WEST))
    && -0.5 <= p.altitude as real - (100.0 * Metres(ts[j+k+4]).value + 10_000_000.0) <= 0.5
  }

  lemma PolarOfNamed(ts: seq<string>, j: nat, k: nat)
    requires NamesAngle(ts, 0, j, NORTH_SOUTH) && NamesAngle(ts, j + 2, k, EAST_WEST)
    ensures PolarOf(ts).Some? <==> NamesPolar(ts, j, k)
    ensures PolarOf(ts).Some? ==> StoredAs(PolarOf(ts).value, ts, j, k)
  {
    AngleIsNamed(ts, 0, NORTH_SOUTH);
    AngleIsNamed(ts, j + 2, EAST_WEST);
    var ns, ew := AngleFrom(ts, 0, NORTH_SOUTH, 0.0, 1).value, AngleFrom(ts, j + 2, EAST_WEST, 0.0, 1).value;
    NamedAngles(ts, j, k, ns, ew);
    PolarOfAngles(ts, ns, ew);
    PolarFromIs(ns, ew, ts, ew.next);
  }

  lemma EitherWay(ns: string, ew: string)
    requires ns in NORTH_SOUTH && ew in EAST_WEST
    ensures ns in ["N", "n", "E", "e"] <==> ns in ["N", "n"]
    ensures ew in ["N", "n", "E", "e"] <==> ew in ["E", "e"]
  {
  }

  lemma PolarFromIs(ns: Angle, ew: Angle, ts: seq<string>, i: nat)
    ensures PolarFrom(ns, ew, ts, i).Some? <==>
              && i + 1 < |ts| && Metres(ts[i]).Some?
              && SizeFits(ts, i + 1, 1.0) && SizeFits(ts, i + 2, 10000.0) && SizeFits(ts, i + 3, 10.0)
    ensures PolarFrom(ns, ew, ts, i).Some? ==>
              var p := PolarFrom(ns, ew, ts, i).value;
              && p.latitude == EncodeAngle(ns.degrees, ns.hemi) && p.longitude == EncodeAngle(ew.degrees, ew.hemi)
              && -0.5 <= p.altitude as real - (100.0 * Metres(ts[i]).value + 10_000_000.0) <= 0.5
  {
    SizeAtIs(ts, i + 1, 1.0);
    SizeAtIs(ts, i + 2, 10000.0);
    SizeAtIs(ts, i + 3, 10.0);
    if i < |ts| && Metres(ts[i]).Some? {
      StoredAltitude(Metres(ts[i]).value);
    }
  }

  /** A line is LOC data exactly when it names two angles, an altitude and sizes that can be
      encoded; coordinates and altitude are then stored as it says. */
  lemma PolarInNumbers(ts: seq<string>)
    ensures PolarOf(ts).Some? <==> exists j: nat, k: nat :: NamesPolar(ts, j, k)
    ensures forall j: nat, k: nat :: NamesPolar(ts, j, k) ==> PolarOf(ts).Some? && StoredAs(PolarOf(ts).value, ts, j, k)
  {
    if PolarOf(ts).Some? {
      NamesFound(ts);
    }
    forall j: nat, k: nat | NamesPolar(ts, j, k)
      ensures PolarOf(ts).Some? && StoredAs(PolarOf(ts).value, ts, j, k)
    {
      PolarOfNamed(ts, j, k);
    }
  }

  lemma NamesFound(ts: seq<string>)
    requires PolarOf(ts).Some?
    ensures exists j: nat, k: nat :: NamesPolar(ts, j, k)
  {
    AngleIsNamed(ts, 0, NORTH_SOUTH);
    var j: nat :| 0 <= j <= 2 && NamesAngle(ts, 0, j, NORTH_SOUTH);
    AngleIsNamed(ts, j + 2, EAST_WEST);
    var k: nat :| 0 <= k <= 2 && NamesAngle(ts, j + 2, k, EAST_WEST);
    PolarOfNamed(ts, j, k);
  }

  /** The part of get_polar after the angles. */
  method GetSizes(ns: Angle, ew: Angle, ts: seq<string>, start: nat) returns (r: Option<Polar>)
    ensures r == PolarFrom(ns, ew, ts, start)
  {
    var i := start;
    if i >= |ts| || Metres(ts[i]).None? {
      return None;
    }
    var altitude := Metres(ts[i]).value;
    i := i + 1;
    if i >= |ts| || Metres(ts[i]).None? {
      return None;
    }
    var size := Metres(ts[i]).value;
    i := i + 1;
    var hp, vp := 10000.0, 10.0;
    if i < |ts| {
      if Metres(ts[i]).None? {
        return None;
      }
      hp := Metres(ts[i]).value;
      i := i + 1;
    }
    if i < |ts| {
      if Metres(ts[i]).None? {
        return None;
      }
      vp := Metres(ts[i]).value;
    }
    var s := EncodeLocSize(size);
    var h := EncodeLocSize(hp);
    var v := EncodeLocSize(vp);
    if s.None? || h.None? || v.None? {
      return None;
    }
    r := Some(Polar(s.value, h.value, v.value, EncodeAngle(ns.degrees, ns.hemi),
                    EncodeAngle(ew.degrees, ew.hemi), AltitudeOf(altitude)));
  }

  /** get_polar. None is the exception. */
  method GetPolar(ts: seq<string>) returns (r: Option<Polar>)
    ensures r == PolarOf(ts)
  {
    var ns := ExtractAngle(ts, 0, NORTH_SOUTH);
    if ns.None? {
      return None;
    }
    var ew := ExtractAngle(ts, ns.value.next, EAST_WEST);
    if ew.None? {
      return None;
    }
    r := GetSizes(ns.value, ew.value, ts, ew.value.next);
  }

  /** The words dump_polar prints. */
  function PolarWords(p: Polar): seq<string> {
    CoordinateWords(CoordinateOf(p.latitude, "S", "N")) + CoordinateWords(CoordinateOf(p.longitude, "W", "E")) +
    [AltitudeText(p.altitude), SizeText(p.size), SizeText(p.horizontal), SizeText(p.vertical)]
  }

  lemma PolarTail(p: Polar, ns: Angle, ew: Angle, ts: seq<string>)
    requires p.size < 256 && p.horizontal < 256 && p.vertical < 256
    requires EncodeAngle(ns.degrees, ns.hemi) == p.latitude && EncodeAngle(ew.degrees, ew.hemi) == p.longitude
    requires |ts| == 12 && ts[8] == AltitudeText(p.altitude)
    requires ts[9] == SizeText(p.size) && ts[10] == SizeText(p.horizontal) && ts[11] == SizeText(p.vertical)
    ensures PolarFrom(ns, ew, ts, 8) == Some(p) <==>
            WholeMetres(p.size) && WholeMetres(p.horizontal) && WholeMetres(p.vertical)
  {
    AltitudeRoundTrip(p.altitude);
    SizeTextRoundTrip(p.size);
    SizeTextRoundTrip(p.horizontal);
    SizeTextRoundTrip(p.vertical);
  }

  lemma PolarWordsStand(p: Polar)
    ensures var ts := PolarWords(p);
            && StandsAt(CoordinateWords(CoordinateOf(p.latitude, "S", "N")), ts, 0)
            && StandsAt(CoordinateWords(CoordinateOf(p.longitude, "W", "E")), ts, 4)
            && |ts| == 12 && ts[8] == AltitudeText(p.altitude)
            && ts[9] == SizeText(p.size) && ts[10] == SizeText(p.horizontal) && ts[11] == SizeText(p.vertical)
  {
  }

  /** A printed LOC record is read back as it was exactly when its three sizes are valid
      octets of whole metres. */
  lemma PolarRoundTrip(p: Polar)
    requires p.size < 256 && p.horizontal < 256 && p.vertical < 256
    ensures PolarOf(PolarWords(p)) == Some(p) <==>
            WholeMetres(p.size) && WholeMetres(p.horizontal) && WholeMetres(p.vertical)
  {
    var ts := PolarWords(p);
    PolarWordsStand(p);
    LatitudeRoundTrip(p.latitude, ts, 0);
    LongitudeRoundTrip(p.longitude, ts, 4);
    var a, b := AngleFrom(ts, 0, NORTH_SOUTH, 0.0, 1).value, AngleFrom(ts, 4, EAST_WEST, 0.0, 1).value;
    PolarOfAngles(ts, a, b);
    PolarTail(p, a, b, ts);
  }
}
