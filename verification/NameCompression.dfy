/** Names in wire format: writing them with compression pointers into a message, and parsing
    them from any bytes. */
module NameCompression {
  type Octet = x: int | 0 <= x < 256

  /** A label holds at most 64 octets. */
  type Label = l: seq<Octet> | |l| <= 64

  type Name = seq<Label>

  const MAX_STEPS: nat := 128
  const MAX_NAME: nat := 254
  const REACH: nat := 0x4000
  const MAX_MESSAGE: nat := 0x1_0000

  // ---- Names are compared without regard to case ----

  function ToLower(c: Octet): Octet {
    if 65 <= c <= 90 then c + 32 else c
  }

  function FoldLabel(l: Label): (r: Label)
    ensures |r| == |l| && forall i :: 0 <= i < |l| ==> r[i] == ToLower(l[i])
  {
    seq(|l|, i requires 0 <= i < |l| => ToLower(l[i]))
  }

  function Fold(n: Name): (r: Name)
    ensures |r| == |n| && forall i :: 0 <= i < |n| ==> r[i] == FoldLabel(n[i])
  {
    seq(|n|, i requires 0 <= i < |n| => FoldLabel(n[i]))
  }

  lemma FoldTail(n: Name)
    requires n != []
    ensures Fold(n)[1..] == Fold(n[1..]) && Fold(n) == [FoldLabel(n[0])] + Fold(n[1..])
  {
  }

  /** Two octets that are equal, or the same letter in both cases. */
  predicate SameLetter(a: Octet, b: Octet) {
    a == b || (65 <= a <= 90 && b == a + 32) || (65 <= b <= 90 && a == b + 32)
  }

  /** Names fold to the same exactly when they are equal octet by octet but for case. */
  lemma FoldTells(m: Name, n: Name)
    ensures Fold(m) == Fold(n) <==>
              |m| == |n| && forall i :: 0 <= i < |m| ==>
                |m[i]| == |n[i]| && forall j :: 0 <= j < |m[i]| ==> SameLetter(m[i][j], n[i][j])
  {
    if Fold(m) == Fold(n) {
      forall i | 0 <= i < |m|
        ensures |m[i]| == |n[i]| && forall j :: 0 <= j < |m[i]| ==> SameLetter(m[i][j], n[i][j])
      {
        assert Fold(m)[i] == Fold(n)[i];
        forall j | 0 <= j < |m[i]|
          ensures SameLetter(m[i][j], n[i][j])
        {
          assert FoldLabel(m[i])[j] == FoldLabel(n[i])[j];
        }
      }
    } else if |m| == |n| {
      var i :| 0 <= i < |m| && Fold(m)[i] != Fold(n)[i];
      if |m[i]| == |n[i]| {
        var j :| 0 <= j < |m[i]| && FoldLabel(m[i])[j] != FoldLabel(n[i])[j];
      }
    }
  }

  /** The octets of a name's labels with their lengths. */
  function Size(n: Name): nat {
    if n == [] then 0 else 1 + |n[0]| + Size(n[1..])
  }

  lemma {:induction false} SizeOfFold(n: Name)
    ensures Size(Fold(n)) == Size(n)
  {
    if n != [] {
      FoldTail(n);
      SizeOfFold(n[1..]);
    }
  }

  /** Labels the parser tells from an end and from a pointer. */
  predicate GoodLabel(l: Label) {
    1 <= |l| <= 63
  }

  predicate Good(n: Name) {
    forall i :: 0 <= i < |n| ==> GoodLabel(n[i])
  }

  // ---- Parsing ----

  datatype Parsed = Parsed(name: Name, next: nat) | Overrun | BadLabel | TooLong | TooMany

  function Prepend(l: Label, r: Parsed): Parsed {
    if r.Parsed? then r.(name := [l] + r.name) else r
  }

  /** Where the pointer at p points. */
  function PointerAt(b: seq<Octet>, p: nat): nat
    requires p + 1 < |b| && b[p] >= 0xC0
  {
    (b[p] as int - 0xC0) * 256 + b[p+1] as int
  }

  /** What one turn of the parser's loop finds. */
  datatype Turn = Ends | Labels(l: Label) | Points(target: nat) | Fails(error: Parsed)

  /** A turn at position p with `total` octets of the name behind it. */
  function TurnAt(b: seq<Octet>, p: nat, total: nat): Turn {
    if p >= |b| then Fails(Overrun)
    else if b[p] == 0 then Ends
    else if b[p] >= 0xC0 then (if p + 1 >= |b| then Fails(Overrun) else Points(PointerAt(b, p)))
    else if b[p] >= 0x40 then Fails(BadLabel)
    else if p + 1 + b[p] > |b| then Fails(Overrun)
    else if total + b[p] + 1 > MAX_NAME then Fails(TooLong)
    else Labels(b[p+1..p+1+b[p]])
  }

  /** The format of section 4.1.4 of RFC 1035 in numbers: an octet of 0 ends a name, 1 to 63
      are the length of a label, 64 to 191 mean nothing, and from 192 on 16 bits hold 49152
      plus the offset the name goes on at. No name may take more than 254 octets. */
  lemma WireFormat(b: seq<Octet>, p: nat, total: nat)
    requires p < |b|
    ensures b[p] == 0 ==> TurnAt(b, p, total) == Ends
    ensures 1 <= b[p] <= 63 && p + b[p] < |b| ==>
              TurnAt(b, p, total) == if total + 1 + b[p] <= 254 then Labels(b[p+1..p+1+b[p]]) else Fails(TooLong)
    ensures 64 <= b[p] <= 191 ==> TurnAt(b, p, total) == Fails(BadLabel)
    ensures 192 <= b[p] && p + 1 < |b| ==>
              256 * b[p] as int + b[p+1] as int >= 49152 &&
              TurnAt(b, p, total) == Points(256 * b[p] as int + b[p+1] as int - 49152)
    ensures (1 <= b[p] <= 63 && p + b[p] >= |b|) || (192 <= b[p] && p + 1 >= |b|) ==> TurnAt(b, p, total) == Fails(Overrun)
  {
  }

  function Pointed(p: nat, r: Parsed): Parsed {
    if r.Parsed? then r.(next := p + 2) else r
  }

  /** parse_name from position p with `left` turns of its loop to go. A pointer takes a turn
      like a label, and the name ends, for the caller, behind the first pointer. */
  function ParseFrom(b: seq<Octet>, p: nat, left: nat, total: nat): Parsed
    decreases left
  {
    if left == 0 then TooMany
    else
      match TurnAt(b, p, total)
      case Ends => Parsed([], p + 1)
      case Labels(l) => Prepend(l, ParseFrom(b, p + 1 + |l|, left - 1, total + 1 + |l|))
      case Points(target) => Pointed(p, ParseFrom(b, target, left - 1, total))
      case Fails(error) => error
  }

  function Resume(name: Name, saved: nat, r: Parsed): Parsed {
    if r.Parsed? then Parsed(name + r.name, if saved > 0 then saved else r.next) else r
  }

  lemma ResumeLabel(name: Name, saved: nat, l: Label, r: Parsed)
    ensures Resume(name + [l], saved, r) == Resume(name, saved, Prepend(l, r))
  {
    if r.Parsed? {
      assert name + [l] + r.name == name + ([l] + r.name);
    }
  }

  lemma ResumePointer(name: Name, saved: nat, p: nat, r: Parsed)
    ensures Resume(name, if saved > 0 then saved else p + 2, r) == Resume(name, saved, Pointed(p, r))
  {
  }

  lemma ResumeEnd(name: Name, saved: nat, p: nat)
    ensures Resume(name, saved, Parsed([], p)) == Parsed(name, if saved > 0 then saved else p)
  {
    assert name + [] == name;
  }

  /** The body of the loop of parse_name, up to what it does with what it finds. */
  method ParseTurn(b: seq<Octet>, p: nat, total: nat) returns (t: Turn)
    ensures t == TurnAt(b, p, total)
  {
    var offset: nat := p;
    if offset + 1 > |b| {
      return Fails(Overrun);
    }
    var len: int := b[offset] as int;
    offset := offset + 1;
    if len == 0 {
      return Ends;
    }
    if len >= 0xC0 {
      if offset + 1 > |b| {
        return Fails(Overrun);
      }
      return Points((len - 0xC0) * 256 + b[offset] as int);
    } else if len >= 0x40 {
      return Fails(BadLabel);
    }
    if offset + len > |b| {
      return Fails(Overrun);
    }
    if total + len + 1 > MAX_NAME {
      return Fails(TooLong);
    }
    t := Labels(b[offset..offset+len]);
  }

  /** The loop of parse_name, for any limit on its turns. */
  method ParseLoop(b: seq<Octet>, start: nat, limit: nat) returns (r: Parsed)
    ensures r == ParseFrom(b, start, limit, 0)
  {
    var name: Name := [];
    var offset: nat, saved: nat, total: nat, n: nat := start, 0, 0, 0;
    ghost var all := ParseFrom(b, start, limit, 0);
    ResumeNothing(all);
    while n < limit
      invariant n <= limit
      invariant all == Resume(name, saved, ParseFrom(b, offset, limit - n, total))
    {
      n := n + 1;
      var t := ParseTurn(b, offset, total);
      match t
      case Ends =>
        ResumeEnd(name, saved, offset + 1);
        return Parsed(name, if saved > 0 then saved else offset + 1);
      case Fails(error) =>
        return error;
      case Points(target) =>
        ResumePointer(name, saved, offset, ParseFrom(b, target, limit - n, total));
        if saved == 0 {
          saved := offset + 2;
        }
        offset := target;
      case Labels(l) =>
        ResumeLabel(name, saved, l, ParseFrom(b, offset + 1 + |l|, limit - n, total + 1 + |l|));
        total := total + 1 + |l|;
        name := name + [l];
        offset := offset + 1 + |l|;
    }
    r := TooMany;
  }

  /** parse_name. Whatever the bytes are it ends, within the bytes, in a name or in one of
      the source's exceptions. */
  method ParseName(b: seq<Octet>, start: nat) returns (r: Parsed)
    ensures r == ParseFrom(b, start, MAX_STEPS, 0)
  {
    r := ParseLoop(b, start, MAX_STEPS);
  }

  lemma ResumeNothing(r: Parsed)
    ensures Resume([], 0, r) == r
  {
    if r.Parsed? {
      assert [] + r.name == r.name;
    }
  }

  /** Every parsed name is within the limits of the standard. */
  lemma {:induction false} ParsedIsGood(b: seq<Octet>, p: nat, left: nat, total: nat)
    requires total <= MAX_NAME
    ensures var r := ParseFrom(b, p, left, total);
            r.Parsed? ==> Good(r.name) && |r.name| < left && total + Size(r.name) <= MAX_NAME
    decreases left
  {
    if left > 0 {
      match TurnAt(b, p, total)
      case Points(target) => ParsedIsGood(b, target, left - 1, total);
      case Labels(l) =>
        ParsedIsGood(b, p + 1 + |l|, left - 1, total + 1 + |l|);
        var more := ParseFrom(b, p + 1 + |l|, left - 1, total + 1 + |l|);
        if more.Parsed? {
          assert ([l] + more.name)[1..] == more.name;
        }
      case Ends =>
      case Fails(_) =>
    }
  }

  // ---- Names without compression ----

  function LabelBytes(l: Label): (r: seq<Octet>)
    ensures |r| == 1 + |l|
  {
    [|l|] + l
  }

  function PlainBytes(n: Name): seq<Octet> {
    if n == [] then [0] else LabelBytes(n[0]) + PlainBytes(n[1..])
  }

  // ---- Writing with compression ----

  /** A compression pointer, from an offset or-ed with 0xC000 in 16 bits. */
  function PointerBytes(offset: nat): (r: seq<Octet>)
    ensures |r| == 2 && r[0] >= 0xC0
    ensures (r[0] as int - 0xC0) * 256 + r[1] as int == offset % REACH
    ensures 256 * r[0] as int + r[1] as int == 49152 + offset % 16384
  {
    var low := offset % REACH;
    [0xC0 + low / 256, low % 256]
  }

  /** What unparse_name writes for a name when the given suffixes are known. */
  function NameBytes(offsets: map<Name, nat>, n: Name): seq<Octet> {
    if n == [] then [0]
    else if Fold(n) in offsets then PointerBytes(offsets[Fold(n)])
    else LabelBytes(n[0]) + NameBytes(offsets, n[1..])
  }

  /** The suffixes known after a name is written at p: offsets are kept in 16 bits. */
  function WithSuffixes(offsets: map<Name, nat>, n: Name, p: nat): map<Name, nat> {
    if n == [] || Fold(n) in offsets then offsets
    else WithSuffixes(offsets, n[1..], p + 1 + |n[0]|)[Fold(n) := p % MAX_MESSAGE]
  }

  /** The octets written with their length checked: all but a pointer. */
  function Checked(offsets: map<Name, nat>, n: Name): nat {
    if n == [] then 1
    else if Fold(n) in offsets then 0
    else 1 + |n[0]| + Checked(offsets, n[1..])
  }

  // ---- What the bytes spell ----

  /** Reading at p takes exactly `steps` turns and spells the folded name t. */
  predicate Spells(b: seq<Octet>, p: nat, t: Name, steps: nat)
    decreases steps
  {
    && steps > 0
    && match TurnAt(b, p, 0)
       case Ends => t == [] && steps == 1
       case Labels(l) => t != [] && FoldLabel(l) == t[0] && Spells(b, p + 1 + |l|, t[1..], steps - 1)
       case Points(target) => Spells(b, target, t, steps - 1)
       case Fails(_) => false
  }

  lemma TurnMore(b: seq<Octet>, more: seq<Octet>, p: nat)
    requires !TurnAt(b, p, 0).Fails?
    ensures TurnAt(b + more, p, 0) == TurnAt(b, p, 0)
  {
    var c := b + more;
    assert c[p] == b[p];
    if 0 < b[p] < 0x40 {
      assert c[p+1..p+1+b[p]] == b[p+1..p+1+b[p]];
    }
  }

  lemma {:induction false} SpellsMore(b: seq<Octet>, more: seq<Octet>, p: nat, t: Name, steps: nat)
    requires Spells(b, p, t, steps)
    ensures Spells(b + more, p, t, steps)
    decreases steps
  {
    TurnMore(b, more, p);
    match TurnAt(b, p, 0)
    case Ends =>
    case Labels(l) => SpellsMore(b, more, p + 1 + |l|, t[1..], steps - 1);
    case Points(target) => SpellsMore(b, more, target, t, steps - 1);
    case Fails(_) => assert false;
  }

  lemma TurnWithin(b: seq<Octet>, p: nat, total: nat)
    requires !TurnAt(b, p, 0).Fails? && total <= MAX_NAME
    ensures var t := TurnAt(b, p, 0);
            TurnAt(b, p, total) == if t.Labels? && total + 1 + |t.l| > MAX_NAME then Fails(TooLong) else t
  {
  }

  /** The name t is read in `steps` turns, if so many are left and it is not too long. */
  predicate ReadAs(r: Parsed, t: Name, steps: nat, left: nat, total: nat) {
    && (r.Parsed? <==> steps <= left && total + Size(t) <= MAX_NAME)
    && (r.Parsed? ==> Fold(r.name) == t)
  }

  lemma ReadLabel(l: Label, r: Parsed, t: Name, steps: nat, left: nat, total: nat)
    requires t != [] && FoldLabel(l) == t[0] && steps > 0 && left > 0
    requires ReadAs(r, t[1..], steps - 1, left - 1, total + 1 + |l|)
    ensures ReadAs(Prepend(l, r), t, steps, left, total)
  {
    assert |t[0]| == |l|;
    if r.Parsed? {
      FoldTail([l] + r.name);
      assert ([l] + r.name)[1..] == r.name && t == [t[0]] + t[1..];
    }
  }

  lemma TooLongToRead(l: Label, t: Name, steps: nat, left: nat, total: nat)
    requires t != [] && FoldLabel(l) == t[0] && total + 1 + |l| > MAX_NAME
    ensures ReadAs(TooLong, t, steps, left, total)
  {
    assert |t[0]| == |l|;
  }

  /** Bytes that spell a name are parsed to it, up to case, exactly when the turns suffice
      and the name is not too long. */
  lemma {:induction false} SpelledIsParsed(b: seq<Octet>, p: nat, t: Name, steps: nat, left: nat, total: nat)
    requires Spells(b, p, t, steps) && total <= MAX_NAME
    ensures ReadAs(ParseFrom(b, p, left, total), t, steps, left, total)
    decreases steps
  {
    if left > 0 {
      TurnWithin(b, p, total);
      match TurnAt(b, p, 0)
      case Ends =>
      case Points(target) => SpelledIsParsed(b, target, t, steps - 1, left - 1, total);
      case Labels(l) =>
        if total + 1 + |l| <= MAX_NAME {
          SpelledIsParsed(b, p + 1 + |l|, t[1..], steps - 1, left - 1, total + 1 + |l|);
          ReadLabel(l, ParseFrom(b, p + 1 + |l|, left - 1, total + 1 + |l|), t, steps, left, total);
        } else {
          TooLongToRead(l, t, steps, left, total);
        }
      case Fails(_) => assert false;
    }
  }

  // ---- What a message under construction knows ----

  /** What is written so far, the suffixes known, and how many turns reading each takes. */
  datatype Wire = Wire(out: seq<Octet>, offsets: map<Name, nat>, steps: map<Name, nat>)

  /** Every known suffix that the parser can tell, and a pointer can reach, is spelled where
      it is said to be. */
  ghost predicate Sound(w: Wire) {
    && w.offsets.Keys == w.steps.Keys
    && forall s :: s in w.offsets ==>
         && s != [] && w.offsets[s] + |s[0]| + 2 <= |w.out| && w.steps[s] <= 2 * |s|
         && (Good(s) && w.offsets[s] < REACH ==> Spells(w.out, w.offsets[s], s, w.steps[s]))
  }

  /** The turns reading a name will take: one a label, one for the end or the pointer. */
  function Steps(steps: map<Name, nat>, n: Name): nat {
    if n == [] then 1
    else if Fold(n) in steps then 1 + steps[Fold(n)]
    else 1 + Steps(steps, n[1..])
  }

  function WithSteps(steps: map<Name, nat>, n: Name): map<Name, nat> {
    if n == [] || Fold(n) in steps then steps
    else WithSteps(steps, n[1..])[Fold(n) := Steps(steps, n)]
  }

  /** The suffix a name points to, if it does, is where a pointer can reach it. */
  predicate PointsLow(offsets: map<Name, nat>, n: Name) {
    n == [] || (if Fold(n) in offsets then offsets[Fold(n)] < REACH else PointsLow(offsets, n[1..]))
  }

  function Written(w: Wire, n: Name): Wire {
    Wire(w.out + NameBytes(w.offsets, n), WithSuffixes(w.offsets, n, |w.out|), WithSteps(w.steps, n))
  }

  lemma SoundMore(w: Wire, more: seq<Octet>)
    requires Sound(w)
    ensures Sound(w.(out := w.out + more))
  {
    forall s | s in w.offsets && Good(s) && w.offsets[s] < REACH
      ensures Spells(w.out + more, w.offsets[s], s, w.steps[s])
    {
      SpellsMore(w.out, more, w.offsets[s], s, w.steps[s]);
    }
  }

  lemma Reassociate<T>(a: seq<T>, b: seq<T>, c: seq<T>)
    ensures a + (b + c) == a + b + c
  {
  }

  lemma GoodTail(n: Name)
    requires n != []
    ensures Good(n) <==> GoodLabel(n[0]) && Good(n[1..])
    ensures Good(Fold(n)) <==> Good(n)
  {
    assert forall i :: 1 <= i < |n| ==> n[i] == n[1..][i-1];
    assert forall i :: 0 <= i < |n| ==> |Fold(n)[i]| == |n[i]|;
  }

  /** Where a label stands in the bytes. */
  lemma LabelStands(b: seq<Octet>, l: Label, rest: seq<Octet>, total: nat)
    requires GoodLabel(l)
    ensures b + (LabelBytes(l) + rest) == b + LabelBytes(l) + rest && |b + LabelBytes(l)| == |b| + 1 + |l|
    ensures TurnAt(b + LabelBytes(l) + rest, |b|, total) ==
            if total + 1 + |l| > MAX_NAME then Fails(TooLong) else Labels(l)
  {
    var all, p := b + LabelBytes(l) + rest, |b|;
    Reassociate(b, LabelBytes(l), rest);
    assert all[p] as int == |l| && all[p+1..p+1+|l|] == l;
  }

  lemma SpellsLabel(b: seq<Octet>, l: Label, rest: seq<Octet>, t: Name, steps: nat)
    requires GoodLabel(l) && Spells(b + LabelBytes(l) + rest, |b + LabelBytes(l)|, t, steps)
    ensures Spells(b + LabelBytes(l) + rest, |b|, [FoldLabel(l)] + t, steps + 1)
  {
    LabelStands(b, l, rest, 0);
    assert ([FoldLabel(l)] + t)[1..] == t;
  }

  lemma PointerStands(b: seq<Octet>, offset: nat, more: seq<Octet>, total: nat)
    ensures TurnAt(b + (PointerBytes(offset) + more), |b|, total) == Points(offset % REACH)
  {
    var all, p := b + (PointerBytes(offset) + more), |b|;
    assert all[p] == PointerBytes(offset)[0] && all[p+1] == PointerBytes(offset)[1];
  }

  lemma SpellsPointer(b: seq<Octet>, target: nat, t: Name, steps: nat)
    requires target < REACH && Spells(b, target, t, steps)
    ensures Spells(b + PointerBytes(target), |b|, t, steps + 1)
  {
    SpellsMore(b, PointerBytes(target), target, t, steps);
    PointerStands(b, target, [], 0);
    assert PointerBytes(target) + [] == PointerBytes(target);
  }

  /** A name is spelled where it is written, in as many turns as are counted. */
  predicate SpelledAt(w: Wire, n: Name) {
    Spells(w.out + NameBytes(w.offsets, n), |w.out|, Fold(n), Steps(w.steps, n))
  }

  lemma SpelledEnd(w: Wire)
    ensures SpelledAt(w, [])
  {
    assert (w.out + [0])[|w.out|] == 0;
  }

  lemma SpelledPointer(w: Wire, n: Name)
    requires Sound(w) && n != [] && Good(Fold(n)) && Fold(n) in w.offsets && w.offsets[Fold(n)] < REACH
    ensures SpelledAt(w, n)
  {
    SpellsPointer(w.out, w.offsets[Fold(n)], Fold(n), w.steps[Fold(n)]);
  }

  function AfterLabel(w: Wire, l: Label): Wire {
    w.(out := w.out + LabelBytes(l))
  }

  lemma SpelledLabel(w: Wire, n: Name)
    requires n != [] && Fold(n) !in w.offsets && Fold(n) !in w.steps && GoodLabel(n[0])
    requires SpelledAt(AfterLabel(w, n[0]), n[1..])
    ensures SpelledAt(w, n)
  {
    SpellsLabel(w.out, n[0], NameBytes(w.offsets, n[1..]), Fold(n[1..]), Steps(w.steps, n[1..]));
    Reassociate(w.out, LabelBytes(n[0]), NameBytes(w.offsets, n[1..]));
    FoldTail(n);
  }

  lemma {:induction false} WrittenIsSpelled(w: Wire, n: Name)
    requires Sound(w) && Good(n) && PointsLow(w.offsets, n)
    ensures SpelledAt(w, n)
    decreases |n|
  {
    if n == [] {
      SpelledEnd(w);
    } else {
      GoodTail(n);
      if Fold(n) in w.offsets {
        SpelledPointer(w, n);
      } else {
        SoundMore(w, LabelBytes(n[0]));
        WrittenIsSpelled(AfterLabel(w, n[0]), n[1..]);
        SpelledLabel(w, n);
      }
    }
  }

  lemma {:induction false} LowStart(w: Wire, n: Name)
    requires Sound(w) && |w.out| < REACH
    ensures PointsLow(w.offsets, n)
  {
    if n != [] && Fold(n) !in w.offsets {
      LowStart(w, n[1..]);
    }
  }

  /** Reading a name takes at most two turns a label, and one more when all of it is a
      pointer. */
  lemma {:induction false} StepsAreFew(w: Wire, n: Name)
    requires Sound(w)
    ensures Steps(w.steps, n) <= 2 * |n| + 1
    ensures n != [] && Fold(n) !in w.steps ==> Steps(w.steps, n) <= 2 * |n|
  {
    if n != [] && Fold(n) !in w.steps {
      StepsAreFew(w, n[1..]);
    }
  }

  lemma AddSuffix(w: Wire, s: Name, p: nat, k: nat)
    requires Sound(w) && s != [] && p + |s[0]| + 2 <= |w.out| && k <= 2 * |s|
    requires Good(s) && p < REACH ==> Spells(w.out, p, s, k)
    ensures Sound(Wire(w.out, w.offsets[s := p], w.steps[s := k]))
  {
  }

  lemma WrittenFirst(w: Wire, n: Name)
    requires n != [] && Fold(n) !in w.offsets && Fold(n) !in w.steps && |w.out| < MAX_MESSAGE
    ensures var v := Written(AfterLabel(w, n[0]), n[1..]);
            && Written(w, n).out == v.out
            && Written(w, n).offsets == v.offsets[Fold(n) := |w.out|]
            && Written(w, n).steps == v.steps[Fold(n) := Steps(w.steps, n)]
  {
    Reassociate(w.out, LabelBytes(n[0]), NameBytes(w.offsets, n[1..]));
    SuffixesFirst(w.offsets, n, |w.out|, |AfterLabel(w, n[0]).out|);
  }

  lemma SuffixesFirst(offsets: map<Name, nat>, n: Name, p: nat, q: nat)
    requires n != [] && Fold(n) !in offsets && p < MAX_MESSAGE && q == p + 1 + |n[0]|
    ensures WithSuffixes(offsets, n, p) == WithSuffixes(offsets, n[1..], q)[Fold(n) := p]
  {
  }

  lemma FirstIsSpelled(w: Wire, n: Name)
    requires Sound(w) && n != [] && Fold(n) !in w.offsets && |w.out| < REACH && Good(Fold(n))
    ensures SpelledAt(w, n)
  {
    GoodTail(n);
    LowStart(w, n);
    WrittenIsSpelled(w, n);
  }

  lemma {:induction false} BytesNotEmpty(offsets: map<Name, nat>, n: Name)
    ensures |NameBytes(offsets, n)| >= 1
  {
  }

  /** Writing a name keeps what is known sound, in a message of at most 64 KB. */
  lemma {:induction false} WritingIsSound(w: Wire, n: Name)
    requires Sound(w) && |Written(w, n).out| <= MAX_MESSAGE
    ensures Sound(Written(w, n))
    decreases |n|
  {
    if n == [] || Fold(n) in w.offsets {
      SoundMore(w, NameBytes(w.offsets, n));
    } else {
      var w1 := AfterLabel(w, n[0]);
      BytesNotEmpty(w.offsets, n);
      SoundMore(w, LabelBytes(n[0]));
      WrittenFirst(w, n);
      WritingIsSound(w1, n[1..]);
      StepsAreFew(w, n);
      if Good(Fold(n)) && |w.out| < REACH {
        FirstIsSpelled(w, n);
      }
      AddSuffix(Written(w1, n[1..]), Fold(n), |w.out|, Steps(w.steps, n));
    }
  }

  // ---- Reading a written name ----

  /** The name is read from p, up to case, and reading goes on at `next`. */
  predicate ComesBack(b: seq<Octet>, p: nat, n: Name, next: nat) {
    var r := ParseFrom(b, p, MAX_STEPS, 0);
    r.Parsed? && Fold(r.name) == Fold(n) && r.next == next
  }

  /** Names the standard admits. */
  predicate Proper(n: Name) {
    Good(n) && Size(n) <= MAX_NAME
  }

  /** Reading bytes behind others and in front of more. */
  function ReadAt(b: seq<Octet>, bytes: seq<Octet>, more: seq<Octet>, left: nat, total: nat): Parsed {
    ParseFrom(b + (bytes + more), |b|, left, total)
  }

  lemma LabelGlue(b: seq<Octet>, l: Label, rest: seq<Octet>, more: seq<Octet>)
    ensures b + ((LabelBytes(l) + rest) + more) == b + LabelBytes(l) + (rest + more)
  {
    Reassociate(LabelBytes(l), rest, more);
    Reassociate(b, LabelBytes(l), rest + more);
  }

  lemma LabelIsRead(b: seq<Octet>, l: Label, rest: seq<Octet>, more: seq<Octet>, left: nat, total: nat)
    requires GoodLabel(l) && left > 0
    ensures ReadAt(b, LabelBytes(l) + rest, more, left, total) ==
            if total + 1 + |l| > MAX_NAME then TooLong
            else Prepend(l, ReadAt(b + LabelBytes(l), rest, more, left - 1, total + 1 + |l|))
  {
    LabelGlue(b, l, rest, more);
    LabelStands(b, l, rest + more, total);
  }

  lemma PointerIsRead(b: seq<Octet>, offset: nat, more: seq<Octet>, left: nat, total: nat)
    requires left > 0
    ensures var all := b + (PointerBytes(offset) + more);
            ReadAt(b, PointerBytes(offset), more, left, total) ==
            Pointed(|b|, ParseFrom(all, offset % REACH, left - 1, total))
  {
    PointerStands(b, offset, more, total);
  }

  lemma EndIsRead(b: seq<Octet>, more: seq<Octet>, left: nat, total: nat)
    requires left > 0
    ensures ReadAt(b, [0], more, left, total) == Parsed([], |b| + 1)
  {
    assert (b + ([0] + more))[|b|] == 0;
  }

  /** Whatever a written name is read as, reading goes on behind it. */
  lemma {:induction false} NextIsBehind(b: seq<Octet>, offsets: map<Name, nat>, n: Name, more: seq<Octet>, left: nat, total: nat)
    requires Good(n)
    ensures var r := ReadAt(b, NameBytes(offsets, n), more, left, total);
            r.Parsed? ==> r.next == |b| + |NameBytes(offsets, n)|
    decreases |n|
  {
    if left > 0 {
      if n == [] {
        EndIsRead(b, more, left, total);
      } else if Fold(n) in offsets {
        PointerIsRead(b, offsets[Fold(n)], more, left, total);
      } else {
        GoodTail(n);
        LabelIsRead(b, n[0], NameBytes(offsets, n[1..]), more, left, total);
        NextIsBehind(b + LabelBytes(n[0]), offsets, n[1..], more, left - 1, total + 1 + |n[0]|);
      }
    }
  }

  lemma FoldedIsProper(m: Name, n: Name)
    requires Fold(m) == Fold(n) && Proper(m)
    ensures Proper(n)
  {
    SizeOfFold(m);
    SizeOfFold(n);
    assert forall i :: 0 <= i < |n| ==> |n[i]| == |Fold(n)[i]| == |Fold(m)[i]| == |m[i]|;
  }

  /** A written name is read back, up to case and whatever follows it, if and only if it is
      proper and the turns of the parser's loop suffice. */
  lemma WrittenComesBack(w: Wire, n: Name, more: seq<Octet>)
    requires Sound(w) && PointsLow(w.offsets, n)
    ensures var b := w.out + NameBytes(w.offsets, n);
            ComesBack(b + more, |w.out|, n, |b|) <==> Proper(n) && Steps(w.steps, n) <= MAX_STEPS
  {
    var b := w.out + NameBytes(w.offsets, n);
    ParsedIsGood(b + more, |w.out|, MAX_STEPS, 0);
    if ComesBack(b + more, |w.out|, n, |b|) {
      FoldedIsProper(ParseFrom(b + more, |w.out|, MAX_STEPS, 0).name, n);
    }
    if Proper(n) {
      WrittenIsSpelled(w, n);
      SpellsMore(b, more, |w.out|, Fold(n), Steps(w.steps, n));
      SpelledIsParsed(b + more, |w.out|, Fold(n), Steps(w.steps, n), MAX_STEPS, 0);
      SizeOfFold(n);
      NextIsBehind(w.out, w.offsets, n, more, MAX_STEPS, 0);
      Reassociate(w.out, NameBytes(w.offsets, n), more);
    }
  }

  lemma {:induction false} PlainIsUnknown(n: Name)
    ensures PlainBytes(n) == NameBytes(map[], n) && Steps(map[], n) == |n| + 1 && PointsLow(map[], n)
  {
    if n != [] {
      PlainIsUnknown(n[1..]);
    }
  }

  lemma {:induction false} ManyLabelsAreLong(n: Name)
    requires Good(n)
    ensures Size(n) >= 2 * |n|
  {
    if n != [] {
      GoodTail(n);
      ManyLabelsAreLong(n[1..]);
    }
  }

  lemma {:induction false} PlainIsExact(b: seq<Octet>, n: Name, more: seq<Octet>, left: nat, total: nat)
    requires Good(n) && |n| < left && total + Size(n) <= MAX_NAME
    ensures ReadAt(b, PlainBytes(n), more, left, total) == Parsed(n, |b| + |PlainBytes(n)|)
    decreases |n|
  {
    if n == [] {
      EndIsRead(b, more, left, total);
    } else {
      GoodTail(n);
      LabelIsRead(b, n[0], PlainBytes(n[1..]), more, left, total);
      PlainIsExact(b + LabelBytes(n[0]), n[1..], more, left - 1, total + 1 + |n[0]|);
      assert [n[0]] + n[1..] == n;
    }
  }

  /** Without compression a name is read back exactly, case and all, if and only if it is
      proper: an empty label would end it early and one of 64 octets is refused, though the
      source's labels can be either. */
  lemma PlainComesBack(b: seq<Octet>, n: Name, more: seq<Octet>)
    ensures ReadAt(b, PlainBytes(n), more, MAX_STEPS, 0) == Parsed(n, |b| + |PlainBytes(n)|) <==> Proper(n)
  {
    ParsedIsGood(b + (PlainBytes(n) + more), |b|, MAX_STEPS, 0);
    if Proper(n) {
      ManyLabelsAreLong(n);
      PlainIsExact(b, n, more, MAX_STEPS, 0);
    }
  }

  /** What is parsed from any bytes can be written again, and is then parsed to the same. */
  lemma ParsedComesBack(b: seq<Octet>, p: nat, before: seq<Octet>, more: seq<Octet>)
    ensures var r := ParseFrom(b, p, MAX_STEPS, 0);
            r.Parsed? ==> ReadAt(before, PlainBytes(r.name), more, MAX_STEPS, 0) ==
                          Parsed(r.name, |before| + |PlainBytes(r.name)|)
  {
    var r := ParseFrom(b, p, MAX_STEPS, 0);
    ParsedIsGood(b, p, MAX_STEPS, 0);
    if r.Parsed? {
      PlainComesBack(before, r.name, more);
    }
  }

  // ---- Whole messages ----

  /** A message as it is written: names, compressed or not, and other bytes. */
  datatype Part = Named(name: Name, compress: bool) | Bytes(bytes: seq<Octet>)

  function Append(w: Wire, part: Part): Wire {
    match part
    case Named(n, true) => Written(w, n)
    case Named(n, false) => w.(out := w.out + PlainBytes(n))
    case Bytes(bytes) => w.(out := w.out + bytes)
  }

  function Message(parts: seq<Part>): Wire {
    if parts == [] then Wire([], map[], map[]) else Append(Message(parts[..|parts|-1]), parts[|parts|-1])
  }

  lemma {:induction false} MessageGrows(parts: seq<Part>, i: nat)
    requires i <= |parts|
    ensures Message(parts[..i]).out <= Message(parts).out
    decreases |parts|
  {
    if i == |parts| {
      assert parts[..i] == parts;
    } else {
      assert parts[..|parts|-1][..i] == parts[..i];
      MessageGrows(parts[..|parts|-1], i);
    }
  }

  lemma {:induction false} MessageIsSound(parts: seq<Part>)
    requires |Message(parts).out| <= MAX_MESSAGE
    ensures Sound(Message(parts))
  {
    if parts != [] {
      var w, part := Message(parts[..|parts|-1]), parts[|parts|-1];
      MessageIsSound(parts[..|parts|-1]);
      match part
      case Named(n, true) => WritingIsSound(w, n);
      case Named(n, false) => SoundMore(w, PlainBytes(n));
      case Bytes(bytes) => SoundMore(w, bytes);
    }
  }

  /** The name at part i is read back where it was written. */
  predicate NameBack(parts: seq<Part>, i: nat)
    requires i < |parts| && parts[i].Named?
  {
    ComesBack(Message(parts).out, |Message(parts[..i]).out|, parts[i].name, |Message(parts[..i+1]).out|)
  }

  function Turns(w: Wire, part: Part): nat
    requires part.Named?
  {
    if part.compress then Steps(w.steps, part.name) else |part.name| + 1
  }

  lemma MessageSplits(parts: seq<Part>, i: nat) returns (more: seq<Octet>)
    requires i < |parts|
    ensures Message(parts[..i+1]) == Append(Message(parts[..i]), parts[i])
    ensures Message(parts).out == Message(parts[..i+1]).out + more
  {
    assert parts[..i+1][..i] == parts[..i];
    MessageGrows(parts, i + 1);
    more := Message(parts).out[|Message(parts[..i+1]).out|..];
  }

  /** In a message of at most 64 KB, a name whose pointer, if it has one, reaches its target
      is read back if and only if it is proper and its turns suffice. */
  lemma NameComesBack(parts: seq<Part>, i: nat)
    requires i < |parts| && parts[i].Named? && |Message(parts).out| <= MAX_MESSAGE
    requires parts[i].compress ==> PointsLow(Message(parts[..i]).offsets, parts[i].name)
    ensures NameBack(parts, i) <==> Proper(parts[i].name) && Turns(Message(parts[..i]), parts[i]) <= MAX_STEPS
  {
    var w, n := Message(parts[..i]), parts[i].name;
    MessageGrows(parts, i);
    MessageIsSound(parts[..i]);
    var more := MessageSplits(parts, i);
    if parts[i].compress {
      WrittenComesBack(w, n, more);
    } else {
      PlainIsUnknown(n);
      WrittenComesBack(Wire(w.out, map[], map[]), n, more);
    }
  }

  // ---- What compression saves ----

  /** With a suffix every shorter one is known. */
  ghost predicate Closed(offsets: map<Name, nat>) {
    forall s :: s in offsets ==> s != [] && (|s| > 1 ==> s[1..] in offsets)
  }

  lemma {:induction false} WritingKeepsClosed(offsets: map<Name, nat>, n: Name, p: nat)
    requires Closed(offsets)
    ensures var known := WithSuffixes(offsets, n, p);
            Closed(known) && offsets.Keys <= known.Keys && (n == [] || Fold(n) in known)
    decreases |n|
  {
    if n != [] && Fold(n) !in offsets {
      FoldTail(n);
      WritingKeepsClosed(offsets, n[1..], p + 1 + |n[0]|);
    }
  }

  lemma {:induction false} MessageIsClosed(parts: seq<Part>, i: nat)
    requires i <= |parts|
    ensures Closed(Message(parts).offsets) && Message(parts[..i]).offsets.Keys <= Message(parts).offsets.Keys
    decreases |parts|
  {
    if parts != [] {
      var before := parts[..|parts|-1];
      MessageIsClosed(before, if i < |parts| then i else 0);
      var w := Message(before);
      if parts[|parts|-1].Named? {
        WritingKeepsClosed(w.offsets, parts[|parts|-1].name, |w.out|);
      }
      if i < |parts| {
        assert before[..i] == parts[..i];
      } else {
        assert parts[..i] == parts;
      }
    }
  }

  lemma {:induction false} TailIsKnown(offsets: map<Name, nat>, n: Name, k: nat)
    requires Closed(offsets) && Fold(n) in offsets && k < |n|
    ensures Fold(n[k..]) in offsets
    decreases k
  {
    if k > 0 {
      FoldTail(n);
      TailIsKnown(offsets, n[1..], k - 1);
      assert n[1..][k-1..] == n[k..];
    } else {
      assert n[0..] == n;
    }
  }

  lemma {:induction false} OwnLabelsAndPointer(offsets: map<Name, nat>, own: Name, shared: Name)
    requires shared != [] && Fold(shared) in offsets
    ensures |NameBytes(offsets, own + shared)| <= Size(own) + 2
    decreases |own|
  {
    if own == [] {
      assert own + shared == shared;
    } else {
      assert (own + shared)[0] == own[0] && (own + shared)[1..] == own[1..] + shared;
      OwnLabelsAndPointer(offsets, own[1..], shared);
    }
  }

  /** A name that ends like one already written with compression, case aside, takes no more
      than its own labels before that end and a pointer of two octets. */
  lemma SharedEndsAreShort(parts: seq<Part>, i: nat, k: nat, own: Name, shared: Name)
    requires i < |parts| && parts[i].Named? && parts[i].compress && k < |parts[i].name|
    requires Fold(shared) == Fold(parts[i].name[k..])
    ensures |NameBytes(Message(parts).offsets, own + shared)| <= Size(own) + 2
    ensures own == [] ==> |NameBytes(Message(parts).offsets, own + shared)| == 2
  {
    var n := parts[i].name;
    var w := Message(parts[..i]);
    MessageIsClosed(parts[..i], 0);
    WritingKeepsClosed(w.offsets, n, |w.out|);
    assert parts[..i+1][..i] == parts[..i];
    MessageIsClosed(parts, i + 1);
    TailIsKnown(Message(parts).offsets, n, k);
    assert |shared| == |Fold(shared)| == |n| - k;
    OwnLabelsAndPointer(Message(parts).offsets, own, shared);
    if own == [] {
      assert own + shared == shared;
    }
  }

  // ---- How many labels, and how long a message ----

  /** All names are proper and have at most `labels` labels. */
  predicate Short(parts: seq<Part>, labels: nat) {
    forall i :: 0 <= i < |parts| && parts[i].Named? ==> Proper(parts[i].name) && |parts[i].name| <= labels
  }

  predicate AllBack(parts: seq<Part>) {
    forall i :: 0 <= i < |parts| && parts[i].Named? ==> NameBack(parts, i)
  }

  lemma {:induction false} LowEnd(w: Wire, n: Name)
    requires Sound(w) && Good(n) && |w.out| + |NameBytes(w.offsets, n)| <= REACH + 4
    ensures PointsLow(w.offsets, n)
  {
    if n != [] {
      GoodTail(n);
      if Fold(n) !in w.offsets {
        LowEnd(w, n[1..]);
      }
    }
  }

  /** Up to 63 labels a name, in a message that ends at most four octets past the reach of
      a pointer, every name is read back. */
  lemma ShortNamesComeBack(parts: seq<Part>)
    requires Short(parts, 63) && |Message(parts).out| <= REACH + 4
    ensures AllBack(parts)
  {
    forall i | 0 <= i < |parts| && parts[i].Named?
      ensures NameBack(parts, i)
    {
      var w, n := Message(parts[..i]), parts[i].name;
      MessageGrows(parts, i);
      MessageGrows(parts, i + 1);
      MessageIsSound(parts[..i]);
      var more := MessageSplits(parts, i);
      StepsAreFew(w, n);
      if parts[i].compress {
        LowEnd(w, n);
      }
      NameComesBack(parts, i);
    }
  }

  /** The label "a", k times. */
  function Ladder(k: nat): (n: Name)
    ensures |n| == k && Fold(n) == n && Good(n) && Size(n) == 2 * k
  {
    if k == 0 then []
    else
      var n: Name := [[97]] + Ladder(k - 1);
      FoldTail(n);
      GoodTail(n);
      assert FoldLabel([97]) == [97];
      n
  }

  /** Names each one label longer than the one before. */
  function Rungs(k: nat): (parts: seq<Part>)
    ensures |parts| == k
  {
    if k == 0 then [] else Rungs(k - 1) + [Named(Ladder(k), true)]
  }

  lemma RestIsKnown(w: Wire, m: Name, q: nat)
    requires m == [] || (Fold(m) == m && m in w.offsets && m in w.steps)
    ensures |NameBytes(w.offsets, m)| <= 2 && WithSuffixes(w.offsets, m, q) == w.offsets
    ensures WithSteps(w.steps, m) == w.steps && Steps(w.steps, m) == if m == [] then 1 else 1 + w.steps[m]
  {
  }

  lemma RungIsWritten(w: Wire, n: Name)
    requires n != [] && |n[0]| == 1 && Fold(n) == n && n !in w.offsets && n !in w.steps
    requires w.offsets.Keys == w.steps.Keys && (n[1..] == [] || (n[1..] in w.offsets && n[1..] in w.steps))
    ensures var v := Written(w, n);
            && |v.out| <= |w.out| + 4 && v.offsets.Keys == w.offsets.Keys + {n}
            && v.steps == w.steps[n := if n[1..] == [] then 2 else 2 + w.steps[n[1..]]]
  {
    FoldTail(n);
    RestIsKnown(w, n[1..], |w.out| + 1 + |n[0]|);
    assert NameBytes(w.offsets, n) == LabelBytes(n[0]) + NameBytes(w.offsets, n[1..]);
    assert WithSuffixes(w.offsets, n, |w.out|) == w.offsets[n := |w.out| % MAX_MESSAGE];
  }

  /** What is known after k rungs: all of them, and the last takes 2k turns. */
  predicate Climbed(w: Wire, k: nat) {
    && |w.out| <= 4 * k && w.offsets.Keys == w.steps.Keys
    && (forall s :: s in w.steps ==> 1 <= |s| <= k)
    && (k > 0 ==> Ladder(k) in w.steps && w.steps[Ladder(k)] == 2 * k)
  }

  /** A rung is a label and a pointer to the rung before, which takes two turns more. */
  lemma Climb(w: Wire, k: nat)
    requires Climbed(w, k)
    ensures Climbed(Written(w, Ladder(k + 1)), k + 1)
  {
    var n := Ladder(k + 1);
    assert n[1..] == Ladder(k);
    RungIsWritten(w, n);
  }

  lemma {:induction false} RungsKnow(k: nat)
    ensures Climbed(Message(Rungs(k)), k)
  {
    if k > 0 {
      RungsKnow(k - 1);
      assert Rungs(k)[..k-1] == Rungs(k - 1);
      Climb(Message(Rungs(k - 1)), k - 1);
    }
  }

  lemma {:induction false} RungsAreShort(k: nat, labels: nat)
    requires k <= labels <= 127
    ensures Short(Rungs(k), labels)
  {
    if k > 0 {
      RungsAreShort(k - 1, labels);
    }
  }

  /** All rungs, and the last of them again. */
  function Fall(k: nat): seq<Part> {
    Rungs(k) + [Named(Ladder(k), true)]
  }

  lemma FallIs(k: nat)
    ensures Fall(k)[..k] == Rungs(k) && Message(Fall(k)) == Written(Message(Rungs(k)), Ladder(k))
  {
    assert Fall(k)[..k] == Rungs(k);
  }

  lemma FallIsShort(k: nat)
    requires k <= 127
    ensures Short(Fall(k), k) && |Message(Fall(k)).out| <= 4 * k + 2
  {
    RungsKnow(k);
    RungsAreShort(k, k);
    FallIs(k);
    RestIsKnown(Message(Rungs(k)), Ladder(k), 0);
  }

  lemma FallTakesTurns(k: nat)
    requires 0 < k <= 127
    ensures var w := Message(Fall(k)[..k]); Turns(w, Fall(k)[k]) == 2 * k + 1 && PointsLow(w.offsets, Ladder(k))
  {
    RungsKnow(k);
    FallIs(k);
    RestIsKnown(Message(Rungs(k)), Ladder(k), 0);
    MessageIsSound(Rungs(k));
    LowStart(Message(Rungs(k)), Ladder(k));
  }

  /** The parser gives up on the last name. */
  lemma LastRungIsLost(k: nat)
    requires 64 <= k <= 127
    ensures Short(Fall(k), k) && |Message(Fall(k)).out| <= REACH && !NameBack(Fall(k), k)
  {
    FallIsShort(k);
    FallTakesTurns(k);
    NameComesBack(Fall(k), k);
  }

  lemma SomeNameIsLost(labels: nat) returns (parts: seq<Part>)
    requires labels >= 64
    ensures Short(parts, labels) && |Message(parts).out| <= REACH && !AllBack(parts)
  {
    var k := if labels <= 127 then labels else 127;
    LastRungIsLost(k);
    parts := Fall(k);
  }

  /** In messages within the reach of a pointer, compression keeps every proper name of at
      most `labels` labels readable if and only if that is at most 63: a name of 64 can take
      the parser 129 turns. */
  lemma CompressionNeedsFewLabels(labels: nat)
    ensures (forall parts :: Short(parts, labels) && |Message(parts).out| <= REACH ==> AllBack(parts))
            <==> labels <= 63
  {
    if labels <= 63 {
      forall parts | Short(parts, labels) && |Message(parts).out| <= REACH
        ensures AllBack(parts)
      {
        assert Short(parts, 63);
        ShortNamesComeBack(parts);
      }
    } else {
      var parts := SomeNameIsLost(labels);
    }
  }

  function Zeros(n: nat): (r: seq<Octet>)
    ensures |r| == n && forall i :: 0 <= i < n ==> r[i] == 0
  {
    seq(n, _ => 0)
  }

  /** A name just past the reach of a pointer, twice. */
  function PastReach(): seq<Part> {
    [Bytes(Zeros(REACH)), Named(Ladder(1), true), Named(Ladder(1), true)]
  }

  lemma FirstIsPlain(w: Wire)
    requires w.offsets == map[] && |w.out| == REACH
    ensures NameBytes(w.offsets, Ladder(1)) == [1, 97, 0]
    ensures WithSuffixes(w.offsets, Ladder(1), |w.out|) == map[Ladder(1) := REACH]
  {
    var n := Ladder(1);
    assert Ladder(0) == [] && n[1..] == [] && n[0] == [97] && Fold(n) == n;
    assert NameBytes(w.offsets, n) == LabelBytes(n[0]) + NameBytes(w.offsets, n[1..]);
    assert LabelBytes([97]) + [0] == [1, 97, 0];
    assert WithSuffixes(w.offsets, n[1..], |w.out| + 2) == w.offsets;
  }

  lemma MessageOfThree(a: Part, b: Part, c: Part)
    ensures Message([a, b, c][..2]) == Append(Append(Wire([], map[], map[]), a), b)
    ensures Message([a, b, c]) == Append(Append(Append(Wire([], map[], map[]), a), b), c)
  {
    assert [a, b, c][..2] == [a, b] && [a, b][..1] == [a] && [a][..0] == [];
    assert Message([a]) == Append(Message([]), a);
    assert Message([a, b]) == Append(Message([a]), b);
  }

  lemma PastReachIs()
    ensures var parts, b := PastReach(), Zeros(REACH) + [1, 97, 0];
            Message(parts[..2]).out == b && Message(parts).out == b + PointerBytes(REACH)
  {
    var n := Ladder(1);
    var start := Wire(Zeros(REACH), map[], map[]);
    MessageOfThree(Bytes(Zeros(REACH)), Named(n, true), Named(n, true));
    assert [] + Zeros(REACH) == Zeros(REACH);
    FirstIsPlain(start);
    assert Fold(n) in Written(start, n).offsets;
  }

  /** The pointer to it points to the start of the message instead. */
  lemma PastReachIsLost()
    ensures Short(PastReach(), 1) && |Message(PastReach()).out| == REACH + 5 && !NameBack(PastReach(), 2)
  {
    var parts, b := PastReach(), Zeros(REACH) + [1, 97, 0];
    PastReachIs();
    assert b + (PointerBytes(REACH) + []) == b + PointerBytes(REACH);
    PointerIsRead(b, REACH, [], MAX_STEPS, 0);
    assert (b + PointerBytes(REACH))[0] == 0;
    assert |Fold([])| != |Fold(Ladder(1))|;
  }

  /** In messages of names of at most 63 labels, compression keeps every proper name
      readable if and only if the message ends at most four octets past the reach of a
      pointer: behind that a pointer to a name loses its upper bits. */
  lemma CompressionNeedsShortMessages(length: nat)
    ensures (forall parts :: Short(parts, 63) && |Message(parts).out| <= length ==> AllBack(parts))
            <==> length <= REACH + 4
  {
    if length <= REACH + 4 {
      forall parts | Short(parts, 63) && |Message(parts).out| <= length
        ensures AllBack(parts)
      {
        ShortNamesComeBack(parts);
      }
    } else {
      PastReachIsLost();
      assert Short(PastReach(), 63) && !AllBack(PastReach());
    }
  }

  // ---- The writer ----

  lemma MergeNew<K, V>(m: map<K, V>, k: K, v: V, added: map<K, V>)
    requires k !in added
    ensures m[k := v] + added == m + added[k := v]
  {
  }

  /** The suffixes a loop over the labels of n has added after i turns are longer than what
      is left, and adding what is left gives them all. */
  ghost predicate Half(known: map<Name, nat>, n: Name, start: nat, i: nat, at: nat, added: map<Name, nat>)
    requires i <= |n|
  {
    && (forall s :: s in added ==> |s| > |n| - i)
    && WithSuffixes(known, n, start) == WithSuffixes(known, n[i..], at) + added
  }

  lemma HalfStep(known: map<Name, nat>, n: Name, start: nat, i: nat, at: nat, next: nat, added: map<Name, nat>)
    requires i < |n| && Half(known, n, start, i, at, added) && Fold(n[i..]) !in known && next == at + 1 + |n[i]|
    ensures Half(known, n, start, i + 1, next, added[Fold(n[i..]) := at % MAX_MESSAGE])
  {
    var m := n[i..];
    assert m[0] == n[i] && m[1..] == n[i+1..];
    MergeNew(WithSuffixes(known, m[1..], next), Fold(m), at % MAX_MESSAGE, added);
  }

  /** The octets after i turns of the loop. */
  ghost predicate MidwayOut(w: Wire, n: Name, i: nat, out: seq<Octet>) {
    && i <= |n| && |w.out| <= |out|
    && out + NameBytes(w.offsets, n[i..]) == w.out + NameBytes(w.offsets, n)
    && |out| + Checked(w.offsets, n[i..]) == |w.out| + Checked(w.offsets, n)
  }

  /** The message after i turns of the loop. */
  ghost predicate Midway(w: Wire, n: Name, i: nat, out: seq<Octet>, offsets: map<Name, nat>, added: map<Name, nat>) {
    MidwayOut(w, n, i, out) && offsets == w.offsets + added && Half(w.offsets, n, |w.out|, i, |out|, added)
  }

  lemma MidwayStart(w: Wire, n: Name)
    ensures Midway(w, n, 0, w.out, w.offsets, map[])
  {
    assert n[0..] == n;
  }

  lemma TurnBytes(known: map<Name, nat>, n: Name, i: nat, out: seq<Octet>)
    requires i < |n| && Fold(n[i..]) !in known
    ensures out + NameBytes(known, n[i..]) == out + LabelBytes(n[i]) + NameBytes(known, n[i+1..])
    ensures Checked(known, n[i..]) == 1 + |n[i]| + Checked(known, n[i+1..])
  {
    assert n[i..][0] == n[i] && n[i..][1..] == n[i+1..];
    Reassociate(out, LabelBytes(n[i]), NameBytes(known, n[i+1..]));
  }

  lemma OutStep(w: Wire, n: Name, i: nat, out: seq<Octet>)
    requires MidwayOut(w, n, i, out) && i < |n| && Fold(n[i..]) !in w.offsets
    ensures |w.out| + Checked(w.offsets, n) >= |out| + 1 + |n[i]|
    ensures MidwayOut(w, n, i + 1, out + LabelBytes(n[i]))
  {
    TurnBytes(w.offsets, n, i, out);
  }

  lemma LaterAdded<K, V>(m: map<K, V>, added: map<K, V>, k: K, v: V)
    ensures (m + added)[k := v] == m + added[k := v]
  {
  }

  lemma MidwayStep(w: Wire, n: Name, i: nat, out: seq<Octet>, offsets: map<Name, nat>, added: map<Name, nat>)
    requires Midway(w, n, i, out, offsets, added) && i < |n| && Fold(n[i..]) !in w.offsets
    ensures |w.out| + Checked(w.offsets, n) >= |out| + 1 + |n[i]|
    ensures var k, v := Fold(n[i..]), |out| % MAX_MESSAGE;
            Midway(w, n, i + 1, out + LabelBytes(n[i]), offsets[k := v], added[k := v])
  {
    HalfStep(w.offsets, n, |w.out|, i, |out|, |out + LabelBytes(n[i])|, added);
    OutStep(w, n, i, out);
    LaterAdded(w.offsets, added, Fold(n[i..]), |out| % MAX_MESSAGE);
  }

  lemma MidwayFinds(w: Wire, n: Name, i: nat, out: seq<Octet>, offsets: map<Name, nat>, added: map<Name, nat>)
    requires Midway(w, n, i, out, offsets, added) && i < |n|
    ensures Fold(n[i..]) in offsets <==> Fold(n[i..]) in w.offsets
  {
  }

  /** A turn of the loop: whether the suffix is known, and what a turn does when it is not. */
  lemma MidwayTurn(w: Wire, n: Name, i: nat, out: seq<Octet>, offsets: map<Name, nat>, added: map<Name, nat>)
    requires Midway(w, n, i, out, offsets, added) && i < |n|
    ensures Fold(n[i..]) !in offsets ==>
              var k, v := Fold(n[i..]), |out| % MAX_MESSAGE;
              && |w.out| + Checked(w.offsets, n) >= |out| + 1 + |n[i]|
              && Midway(w, n, i + 1, out + LabelBytes(n[i]), offsets[k := v], added[k := v])
  {
    MidwayFinds(w, n, i, out, offsets, added);
    if Fold(n[i..]) !in offsets {
      MidwayStep(w, n, i, out, offsets, added);
    }
  }

  lemma MidwayPoints(w: Wire, n: Name, i: nat, out: seq<Octet>, offsets: map<Name, nat>, added: map<Name, nat>)
    requires Midway(w, n, i, out, offsets, added) && i < |n| && Fold(n[i..]) in w.offsets
    ensures Fold(n[i..]) in offsets && offsets == WithSuffixes(w.offsets, n, |w.out|)
    ensures out + PointerBytes(offsets[Fold(n[i..])]) == w.out + NameBytes(w.offsets, n)
    ensures |out| == |w.out| + Checked(w.offsets, n)
  {
  }

  lemma MidwayEnds(w: Wire, n: Name, out: seq<Octet>, offsets: map<Name, nat>, added: map<Name, nat>)
    requires Midway(w, n, |n|, out, offsets, added)
    ensures offsets == WithSuffixes(w.offsets, n, |w.out|) && out + [0] == w.out + NameBytes(w.offsets, n)
    ensures |out| + 1 == |w.out| + Checked(w.offsets, n)
  {
    assert n[|n|..] == [];
  }

  /** A message being written, of at most `size` octets. */
  class MessageWriter {
    const size: nat
    var out: seq<Octet>
    var offsets: map<Name, nat>
    ghost var steps: map<Name, nat>

    ghost function State(): Wire
      reads this
    {
      Wire(out, offsets, steps)
    }

    constructor (size: nat)
      ensures this.size == size && State() == Message([])
    {
      this.size, out, offsets, steps := size, [], map[], map[];
    }

    /** Writes octets, checking the length. */
    method Put(bytes: seq<Octet>) returns (ok: bool)
      modifies this`out
      ensures ok == (|old(out)| + |bytes| <= size)
      ensures out == if ok then old(out) + bytes else old(out)
    {
      ok := |out| + |bytes| <= size;
      if ok {
        out := out + bytes;
      }
    }

    /** A label with its length: two checks in the original. */
    method PutLabel(l: Label) returns (ok: bool)
      modifies this`out
      ensures ok == (|old(out)| + 1 + |l| <= size)
      ensures ok ==> out == old(out) + LabelBytes(l)
    {
      ghost var before := out;
      ok := Put([|l|]);
      if ok {
        ok := Put(l);
        Reassociate(before, [|l|], l);
      }
    }

    /** unparse_name without compression. False is the overrun exception, after which the
        message is given up. */
    method UnparsePlain(n: Name) returns (ok: bool)
      modifies this`out
      ensures ok == (|old(out)| + |PlainBytes(n)| <= size)
      ensures ok ==> out == old(out) + PlainBytes(n)
    {
      ghost var all := out + PlainBytes(n);
      var i := 0;
      while i < |n|
        invariant 0 <= i <= |n| && out + PlainBytes(n[i..]) == all
      {
        ghost var before := out;
        assert n[i..][0] == n[i] && n[i..][1..] == n[i+1..];
        Reassociate(before, LabelBytes(n[i]), PlainBytes(n[i+1..]));
        ok := PutLabel(n[i]);
        if !ok {
          return;
        }
        i := i + 1;
      }
      ok := Put([0]);
    }

    /** One turn of the loop for a suffix that is not known yet. */
    method WriteTurn(index: Name) returns (ok: bool)
      requires index != []
      modifies this`out, this`offsets
      ensures ok == (|old(out)| + 1 + |index[0]| <= size)
      ensures ok ==> out == old(out) + LabelBytes(index[0])
      ensures ok ==> offsets == old(offsets)[Fold(index) := |old(out)| % MAX_MESSAGE]
    {
      offsets := offsets[Fold(index) := |out| % MAX_MESSAGE];
      ok := PutLabel(index[0]);
    }

    /** The loop of unparse_name, up to a suffix that is known. */
    method WriteLabels(n: Name) returns (ok: bool, i: nat, ghost added: map<Name, nat>)
      modifies this`out, this`offsets
      ensures ok ==>
                && Midway(old(State()), n, i, out, offsets, added) && (i == |n| || Fold(n[i..]) in offsets)
                && (out == old(out) || |out| <= size)
      ensures !ok ==> size < |old(out)| + Checked(old(offsets), n) && Checked(old(offsets), n) > 0
    {
      ghost var w := State();
      added, i := map[], 0;
      MidwayStart(w, n);
      while i < |n| && Fold(n[i..]) !in offsets
        invariant i <= |n| && Midway(w, n, i, out, offsets, added)
        invariant out == w.out || |out| <= size
      {
        MidwayTurn(w, n, i, out, offsets, added);
        added := added[Fold(n[i..]) := |out| % MAX_MESSAGE];
        ok := WriteTurn(n[i..]);
        if !ok {
          return;
        }
        i := i + 1;
      }
      ok := true;
    }

    /** unparse_name with compression: the length is checked for all but the pointer. */
    method UnparseName(n: Name) returns (ok: bool)
      modifies this
      ensures var checked := Checked(old(offsets), n);
              ok == (checked == 0 || |old(out)| + checked <= size)
      ensures ok ==> State() == Written(old(State()), n)
    {
      ghost var w := State();
      var i: nat;
      ghost var added;
      ok, i, added := WriteLabels(n);
      if !ok {
        return;
      }
      steps := WithSteps(steps, n);
      if i < |n| {
        MidwayFinds(w, n, i, out, offsets, added);
        MidwayPoints(w, n, i, out, offsets, added);
        out := out + PointerBytes(offsets[Fold(n[i..])]);
      } else {
        MidwayEnds(w, n, out, offsets, added);
        ok := Put([0]);
      }
    }
  }
}
