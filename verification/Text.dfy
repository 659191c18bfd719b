/** ASCII character classes, decimal numbers and comma lists, as the zone file scripts use
    them on strings. */
module Text {
  import opened Dns

  predicate IsDigit(c: char) {
    '0' <= c <= '9'
  }

  predicate IsLower(c: char) {
    'a' <= c <= 'z'
  }

  predicate IsUpper(c: char) {
    'A' <= c <= 'Z'
  }

  predicate IsAlnum(c: char) {
    IsDigit(c) || IsLower(c) || IsUpper(c)
  }

  function ToLower(c: char): char {
    if IsUpper(c) then (c as int + 32) as char else c
  }

  function Lower(s: string): (r: string)
    ensures |r| == |s|
  {
    if s == "" then "" else [ToLower(s[0])] + Lower(s[1..])
  }

  predicate AllDigits(s: string) {
    forall i :: 0 <= i < |s| ==> IsDigit(s[i])
  }

  lemma {:induction false} LowerOfDigits(s: string)
    requires AllDigits(s)
    ensures Lower(s) == s
  {
    if s != "" {
      LowerOfDigits(s[1..]);
    }
  }

  // ---- Decimal numbers ----

  function DigitOf(c: char): nat
    requires IsDigit(c)
  {
    c as int - '0' as int
  }

  function DigitChar(d: nat): (c: char)
    requires d < 10
    ensures IsDigit(c) && DigitOf(c) == d
  {
    ('0' as int + d) as char
  }

  /** The number a string of digits denotes. */
  function ValueOf(s: string): nat
    requires AllDigits(s)
  {
    if s == "" then 0 else ValueOf(s[..|s|-1]) * 10 + DigitOf(s[|s|-1])
  }

  /** How a number is printed. */
  function Decimal(n: nat): (s: string)
    ensures s != "" && AllDigits(s)
  {
    if n < 10 then [DigitChar(n)] else Decimal(n / 10) + [DigitChar(n % 10)]
  }

  lemma {:induction false} DecimalRoundTrip(n: nat)
    ensures ValueOf(Decimal(n)) == n
  {
    if n >= 10 {
      DecimalRoundTrip(n / 10);
      assert Decimal(n)[..|Decimal(n)|-1] == Decimal(n / 10);
    } else {
      assert [DigitChar(n)][..0] == "";
    }
  }

  function Signed(n: int): string {
    if n < 0 then ['-'] + Decimal(-n) else Decimal(n)
  }

  /** Whitespace that int() strips. */
  predicate IsSpace(c: char) {
    c == ' ' || '\t' <= c <= '\r' || (28 <= c as int <= 31)
  }

  function StripLeft(s: string): string {
    if s != "" && IsSpace(s[0]) then StripLeft(s[1..]) else s
  }

  function StripRight(s: string): string {
    if s != "" && IsSpace(s[|s|-1]) then StripRight(s[..|s|-1]) else s
  }

  /** Digits with single underscores between them. */
  predicate IsDigitGroup(s: string) {
    && s != "" && IsDigit(s[0]) && IsDigit(s[|s|-1])
    && (forall i :: 0 <= i < |s| ==> IsDigit(s[i]) || s[i] == '_')
    && (forall i :: 0 <= i < |s| - 1 ==> s[i] != '_' || s[i+1] != '_')
  }

  function DropUnderscores(s: string): (r: string)
    requires forall i :: 0 <= i < |s| ==> IsDigit(s[i]) || s[i] == '_'
    ensures AllDigits(r)
  {
    if s == "" then ""
    else (if s[0] == '_' then "" else [s[0]]) + DropUnderscores(s[1..])
  }

  function GroupValue(s: string): Option<nat> {
    if IsDigitGroup(s) then Some(ValueOf(DropUnderscores(s))) else None
  }

  function SignedGroup(t: string): Option<int> {
    if t == "" then None
    else if t[0] == '-' then
      match GroupValue(t[1..])
      case None => None
      case Some(v) => Some(0 - v)
    else GroupValue(if t[0] == '+' then t[1..] else t)
  }

  /** What int() makes of a string; None is the ValueError. */
  function PyInt(s: string): Option<int> {
    SignedGroup(StripRight(StripLeft(s)))
  }

  lemma {:induction false} NothingToDrop(s: string)
    requires AllDigits(s)
    ensures DropUnderscores(s) == s
  {
    if s != "" {
      NothingToDrop(s[1..]);
    }
  }

  lemma StripNothing(s: string)
    requires s != "" && !IsSpace(s[0]) && !IsSpace(s[|s|-1])
    ensures StripRight(StripLeft(s)) == s
  {
  }

  lemma GroupOfDigits(d: string)
    requires d != "" && AllDigits(d)
    ensures GroupValue(d) == Some(ValueOf(d))
  {
    NothingToDrop(d);
    assert IsDigitGroup(d);
  }

  lemma IntOfDigits(d: string, v: nat)
    requires d != "" && AllDigits(d) && ValueOf(d) == v
    ensures PyInt(d) == Some(v)
  {
    StripNothing(d);
    GroupOfDigits(d);
  }

  lemma NegativeGroup(d: string, v: nat)
    requires GroupValue(d) == Some(v)
    ensures SignedGroup(['-'] + d) == Some(0 - v)
  {
    assert (['-'] + d)[1..] == d;
  }

  lemma IntOfNegative(d: string, v: nat)
    requires d != "" && AllDigits(d) && ValueOf(d) == v
    ensures PyInt(['-'] + d) == Some(0 - v)
  {
    var s := ['-'] + d;
    assert s[|s|-1] == d[|d|-1];
    StripNothing(s);
    GroupOfDigits(d);
    NegativeGroup(d, v);
  }

  /** int() undoes printing. */
  lemma IntOfPrinted(n: int)
    ensures PyInt(Signed(n)) == Some(n)
  {
    if n < 0 {
      DecimalRoundTrip(-n);
      IntOfNegative(Decimal(-n), -n);
    } else {
      DecimalRoundTrip(n);
      IntOfDigits(Decimal(n), n);
    }
  }

  // ---- Splitting and joining ----

  /** The parts of a string between separators: one more than there are separators. */
  function Split(s: string, sep: char): (parts: seq<string>)
    ensures parts != []
  {
    if s == "" then [""]
    else if s[0] == sep then [""] + Split(s[1..], sep)
    else
      var rest := Split(s[1..], sep);
      [[s[0]] + rest[0]] + rest[1..]
  }

  function Join(parts: seq<string>, sep: string): string {
    if parts == [] then ""
    else if |parts| == 1 then parts[0]
    else parts[0] + sep + Join(parts[1..], sep)
  }

  lemma {:induction false} SplitHead(a: string, s: string, sep: char)
    requires sep !in a
    ensures Split(a + s, sep) == [a + Split(s, sep)[0]] + Split(s, sep)[1..]
  {
    if a == "" {
      assert a + s == s;
      assert a + Split(s, sep)[0] == Split(s, sep)[0];
    } else {
      assert (a + s)[1..] == a[1..] + s && (a + s)[0] == a[0];
      SplitHead(a[1..], s, sep);
      assert [a[0]] + (a[1..] + Split(s, sep)[0]) == a + Split(s, sep)[0];
    }
  }

  /** Splitting undoes joining when no part holds the separator. */
  lemma {:induction false} SplitJoin(parts: seq<string>, sep: char)
    requires parts != [] && forall i :: 0 <= i < |parts| ==> sep !in parts[i]
    ensures Split(Join(parts, [sep]), sep) == parts
  {
    if |parts| == 1 {
      SplitHead(parts[0], "", sep);
      assert parts[0] + "" == parts[0];
    } else {
      SplitJoin(parts[1..], sep);
      var tail := [sep] + Join(parts[1..], [sep]);
      assert tail[1..] == Join(parts[1..], [sep]);
      SplitHead(parts[0], tail, sep);
      assert parts[0] + [sep] + Join(parts[1..], [sep]) == parts[0] + tail;
      assert Split(tail, sep) == [""] + parts[1..];
      assert parts[0] + "" == parts[0];
    }
  }

  /** The string without the given character. */
  function Without(s: string, c: char): string {
    if s == "" then ""
    else (if s[0] == c then "" else [s[0]]) + Without(s[1..], c)
  }

  lemma {:induction false} WithoutNothing(s: string, c: char)
    requires c !in s
    ensures Without(s, c) == s
  {
    if s != "" {
      WithoutNothing(s[1..], c);
    }
  }

  lemma {:induction false} WithoutConcat(a: string, b: string, c: char)
    ensures Without(a + b, c) == Without(a, c) + Without(b, c)
  {
    if a == "" {
      assert a + b == b;
    } else {
      assert (a + b)[0] == a[0] && (a + b)[1..] == a[1..] + b;
      WithoutConcat(a[1..], b, c);
    }
  }

  /** The strings one after the other. */
  function Flat(ss: seq<string>): string {
    if ss == [] then "" else ss[0] + Flat(ss[1..])
  }

  lemma {:induction false} FlatConcat(a: seq<string>, b: seq<string>)
    ensures Flat(a + b) == Flat(a) + Flat(b)
  {
    if a == [] {
      assert a + b == b;
    } else {
      assert (a + b)[1..] == a[1..] + b;
      FlatConcat(a[1..], b);
      assert a[0] + (Flat(a[1..]) + Flat(b)) == a[0] + Flat(a[1..]) + Flat(b);
    }
  }

  lemma FlatOne(s: string)
    ensures Flat([s]) == s
  {
    assert [s][1..] == [];
    assert s + "" == s;
  }

  lemma FlatAppend(ss: seq<string>, i: nat)
    requires i < |ss|
    ensures Flat(ss[..i+1]) == Flat(ss[..i]) + ss[i]
  {
    assert ss[..i+1] == ss[..i] + [ss[i]];
    FlatConcat(ss[..i], [ss[i]]);
    FlatOne(ss[i]);
  }

  /** The strings with a space behind each. */
  function Spaced(ss: seq<string>): (r: seq<string>)
    ensures |r| == |ss| && forall i :: 0 <= i < |r| ==> r[i] == ss[i] + " "
  {
    seq(|ss|, i requires 0 <= i < |ss| => ss[i] + " ")
  }
}
