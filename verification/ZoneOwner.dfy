/** The words in front of a record's type: owner, TTL and class in either order, what is
    missing taken from the statements before. */
module ZoneOwner {
  import opened Dns
  import opened Text
  import opened ZoneToken
  import opened ZoneUtil
  import opened ZoneRdata
  import opened ZoneStatement

  // ---- Names ----

  lemma {:induction false} SplitConcat(a: string, b: string, sep: char)
    ensures Split(a + [sep] + b, sep) == Split(a, sep) + Split(b, sep)
  {
    var s := a + [sep] + b;
    if a == "" {
      assert s[1..] == b;
    } else {
      assert s[0] == a[0] && s[1..] == a[1..] + [sep] + b;
      SplitConcat(a[1..], b, sep);
    }
  }

  predicate EndsInDot(n: string) {
    n != "" && n[|n|-1] == '.'
  }

  /** The origin sign names the origin, a name with a dot at its end stands for itself, and
      the labels of any other are followed by the labels of the origin. */
  lemma NameInLabels(origin: Option<string>, n: string)
    ensures n == "@" ==> NameOf(origin, Some(n)) == origin
    ensures EndsInDot(n) ==> NameOf(origin, Some(n)) == Some(n)
    ensures n != "" && n != "@" && !EndsInDot(n) ==>
              match origin
              case None => NameOf(origin, Some(n)) == None
              case Some(o) =>
                NameOf(origin, Some(n)).Some? && Split(NameOf(origin, Some(n)).value, '.') == Split(n, '.') + Split(o, '.')
    ensures NameOf(origin, Some("")) == None
  {
    if origin.Some? {
      SplitConcat(n, origin.value, '.');
    }
  }

  // ---- Headers ----

  /** What may stand in front of a type: [owner] [TTL] [class] or [owner] [class] [TTL]. */
  datatype Header = Header(owner: Option<string>, ttl: Option<string>, inClass: bool, classFirst: bool)

  function Words(h: Header): seq<string> {
    var owner := if h.owner.Some? then [h.owner.value] else [];
    var ttl := if h.ttl.Some? then [h.ttl.value] else [];
    var inClass := if h.inClass then ["IN"] else [];
    owner + if h.classFirst then inClass + ttl else ttl + inClass
  }

  predicate LooksLikeTtl(w: string) {
    TtlOf(w).Some?
  }

  /** The words can be told apart. A TTL needs a name or a class beside it: alone it is
      taken for an owner. An owner followed by both may look like anything. */
  predicate Clear(h: Header) {
    && (h.ttl.Some? ==> LooksLikeTtl(h.ttl.value) && (h.owner.Some? || h.inClass))
    && (h.owner.Some? && !(h.ttl.Some? && h.inClass) ==>
          h.owner.value != "IN" && (h.ttl.Some? || h.inClass ==> !LooksLikeTtl(h.owner.value)))
  }

  /** The tokens spell the words; only a word can be the first of two. */
  predicate Spell(left: seq<Token>, h: Header) {
    AllHaveValues(left) && Texts(left) == Words(h) && (|left| == 2 ==> left[0].Word?)
  }

  /** The owner is the name that is given, or else the last one or the origin. */
  function Owner(h: Header, ctx: Context): Option<string> {
    if h.owner.Some? then NameOf(ctx.origin, h.owner)
    else if ctx.lastName.Some? then ctx.lastName else ctx.origin
  }

  /** The TTL is the one that is given, or else the last one or the default. */
  function Ttl(h: Header, ctx: Context): Option<nat> {
    if h.ttl.Some? then TtlOf(h.ttl.value)
    else if ctx.lastTtl.Some? then ctx.lastTtl else ctx.ttl
  }

  /** A header that is read without an owner or a TTL to fall back on: two words are never
      refused for that, a lone name is even if only the owner is not needed. */
  predicate Complete(h: Header, ctx: Context) {
    || |Words(h)| == 2
    || (Owner(h, ctx).Some? && Ttl(h, ctx).Some? && (|Words(h)| == 1 ==> ctx.lastName.Some? || ctx.origin.Some?))
  }

  /** What a header says in a context; None is the exception. */
  function Said(h: Header, ctx: Context): Option<Left> {
    if (h.owner.Some? && Owner(h, ctx).None?) || !Complete(h, ctx) then None
    else Some(Left(Owner(h, ctx), Ttl(h, ctx)))
  }

  lemma WordsAreValues(left: seq<Token>, h: Header)
    requires Spell(left, h)
    ensures |left| == |Words(h)| && forall i :: 0 <= i < |left| ==> left[i].Value() == Some(Words(h)[i])
  {
    assert forall i :: 0 <= i < |left| ==> left[i].Value() == Some(Texts(left)[i]);
  }

  lemma ShortHeaderIsRead(h: Header, left: seq<Token>, ctx: Context)
    requires Clear(h) && Spell(left, h) && |left| <= 1
    ensures LeftOf(left, ctx) == Said(h, ctx)
  {
    WordsAreValues(left, h);
  }

  lemma ClassAndTtlAreRead(h: Header, l: string, r: string, ctx: Context)
    requires Clear(h) && |Words(h)| == 2 && l == Words(h)[0] && r == Words(h)[1] && h.owner.None?
    ensures TwoLeft(l, r, ctx) == Said(h, ctx)
  {
    InIsNoTtl();
    assert h.ttl.Some? && h.inClass && (if h.classFirst then l == "IN" && r == h.ttl.value else l == h.ttl.value && r == "IN");
  }

  lemma NameAndOtherAreRead(h: Header, l: string, r: string, ctx: Context)
    requires Clear(h) && |Words(h)| == 2 && l == Words(h)[0] && r == Words(h)[1] && h.owner.Some?
    ensures TwoLeft(l, r, ctx) == Said(h, ctx)
  {
    InIsNoTtl();
    assert l == h.owner.value && r == if h.inClass then "IN" else h.ttl.value;
  }

  lemma PairIsRead(h: Header, left: seq<Token>, ctx: Context)
    requires Clear(h) && Spell(left, h) && |left| == 2
    ensures LeftOf(left, ctx) == Said(h, ctx)
  {
    WordsAreValues(left, h);
    var l, r := Words(h)[0], Words(h)[1];
    assert LeftOf(left, ctx) == TwoLeft(l, r, ctx);
    if h.owner.None? {
      ClassAndTtlAreRead(h, l, r, ctx);
    } else {
      NameAndOtherAreRead(h, l, r, ctx);
    }
  }

  lemma ThreeWords(h: Header)
    requires |Words(h)| == 3
    ensures h.owner.Some? && h.ttl.Some? && h.inClass && Words(h)[0] == h.owner.value
    ensures Words(h)[1] == (if h.classFirst then "IN" else h.ttl.value)
    ensures Words(h)[2] == (if h.classFirst then h.ttl.value else "IN")
  {
  }

  lemma TripleIsRead(h: Header, left: seq<Token>, ctx: Context)
    requires Clear(h) && Spell(left, h) && |left| == 3
    ensures LeftOf(left, ctx) == Said(h, ctx)
  {
    WordsAreValues(left, h);
    ThreeWords(h);
    InIsNoTtl();
    assert left[0].Value() == h.owner;
    if h.classFirst {
      assert left[1].Value() == Some("IN") && left[2].Value() == h.ttl;
    } else {
      assert left[1].Value() == h.ttl && left[2].Value() == Some("IN");
    }
  }

  /** Every clear header is read for what it says, in every context. */
  lemma HeaderIsRead(h: Header, left: seq<Token>, ctx: Context)
    requires Clear(h) && Spell(left, h)
    ensures LeftOf(left, ctx) ==
            if (h.owner.Some? && Owner(h, ctx).None?) || !Complete(h, ctx) then None
            else Some(Left(Owner(h, ctx), Ttl(h, ctx)))
  {
    WordsAreValues(left, h);
    if |left| <= 1 {
      ShortHeaderIsRead(h, left, ctx);
    } else if |left| == 2 {
      PairIsRead(h, left, ctx);
    } else {
      TripleIsRead(h, left, ctx);
    }
  }

  lemma InIsNoTtl()
    ensures !LooksLikeTtl("IN")
  {
    ZoneStatement.InIsNoTtl();
  }

  /** The header that three tokens or fewer are, if they are accepted. */
  function HeaderOf(ws: seq<string>): Header
    requires |ws| <= 3
  {
    if |ws| == 0 then Header(None, None, false, false)
    else if |ws| == 1 then (if ws[0] == "IN" then Header(None, None, true, false) else Header(Some(ws[0]), None, false, false))
    else if |ws| == 2 then
      if LooksLikeTtl(ws[0]) then Header(None, Some(ws[0]), true, false)
      else if ws[0] == "IN" then Header(None, Some(ws[1]), true, true)
      else if ws[1] == "IN" then Header(Some(ws[0]), None, true, false)
      else Header(Some(ws[0]), Some(ws[1]), false, false)
    else if ws[1] == "IN" then Header(Some(ws[0]), Some(ws[2]), true, true)
    else Header(Some(ws[0]), Some(ws[1]), true, false)
  }

  /** And nothing else is accepted in front of a type, in at most three tokens. */
  lemma AcceptedIsHeader(left: seq<Token>, ctx: Context)
    requires AllHaveValues(left) && |left| <= 3 && LeftOf(left, ctx).Some?
    ensures Clear(HeaderOf(Texts(left))) && Spell(left, HeaderOf(Texts(left)))
  {
    InIsNoTtl();
    assert forall i :: 0 <= i < |left| ==> left[i].Value() == Some(Texts(left)[i]);
    assert Words(HeaderOf(Texts(left))) == Texts(left);
  }

  lemma {:induction false} FirstType(left: seq<Token>, t: Token, data: seq<Token>)
    requires (forall i :: 0 <= i < |left| ==> !IsType(left[i])) && IsType(t)
    ensures TypeIndex(left + [t] + data) == |left|
    decreases |left|
  {
    var ts := left + [t] + data;
    if left != [] {
      assert ts[0] == left[0] && ts[1..] == left[1..] + [t] + data;
      FirstType(left[1..], t, data);
    }
  }

  /** A record of a clear header, a supported type and some data is assembled to the owner
      and TTL the header says and to what its data stand for, or refused with them. */
  lemma RecordInWords(h: Header, left: seq<Token>, rtype: string, data: seq<Token>, ctx: Context, c: Checks)
    requires Clear(h) && Spell(left, h) && Supported(rtype) && data != [] && AllHaveValues(data)
    requires forall i :: 0 <= i < |left| ==> !IsType(left[i])
    ensures RecordTokens(left + [Word(rtype)] + data)
    ensures Assemble(left + [Word(rtype)] + data, ctx, c) ==
            if (h.owner.Some? && Owner(h, ctx).None?) || !Complete(h, ctx) || RdataOf(rtype, ctx.origin, data, c).None? then None
            else Some(Record(Owner(h, ctx), Ttl(h, ctx), rtype, RdataOf(rtype, ctx.origin, data, c).value))
  {
    var ts := left + [Word(rtype)] + data;
    FirstType(left, Word(rtype), data);
    HeaderIsRead(h, left, ctx);
    assert ts[..|left|] == left && ts[|left|] == Word(rtype) && ts[|left|+1..] == data;
  }
}
