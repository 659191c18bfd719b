/** Writing statements out again in any layout: blanks, line breaks and comments inside
    brackets. Whatever the layout, the parser finds the same statements. */
module ZoneLayout {
  import opened Dns
  import opened ZoneToken
  import opened ZoneRdata
  import opened ZoneStatement
  import opened ZoneParser

  /** A piece of a written record: a token, a blank, a line break after an optional comment,
      or a bracket. */
  datatype Piece = Item(t: Token) | Gap(c: char) | Break(comment: Option<string>) | OpenBracket | CloseBracket

  type Layout = seq<Piece>

  predicate PieceOk(p: Piece) {
    match p
    case Item(t) => Lexable(t)
    case Gap(c) => IsBlank(c)
    case Break(Some(text)) => '\n' !in text
    case _ => true
  }

  function ShowPiece(p: Piece): string
    requires PieceOk(p)
  {
    match p
    case Item(t) => Show(t)
    case Gap(c) => [c]
    case Break(None) => "\n"
    case Break(Some(text)) => ";" + text + "\n"
    case OpenBracket => "("
    case CloseBracket => ")"
  }

  /** Whether a word may stand before the piece. */
  predicate EndsWordBefore(p: Piece) {
    !p.Item? && (p.Break? ==> p.comment.None?)
  }

  /** A record's layout: brackets match and do not nest, and the line breaks once outside
      them, at its end. */
  predicate WellLaid(ps: Layout, inBrackets: bool)
    decreases |ps|
  {
    && ps != [] && PieceOk(ps[0])
    && match ps[0]
       case Item(t) => (t.Word? ==> |ps| > 1 && EndsWordBefore(ps[1])) && WellLaid(ps[1..], inBrackets)
       case Gap(_) => WellLaid(ps[1..], inBrackets)
       case Break(_) => if inBrackets then WellLaid(ps[1..], true) else |ps| == 1
       case OpenBracket => !inBrackets && WellLaid(ps[1..], true)
       case CloseBracket => inBrackets && WellLaid(ps[1..], false)
  }

  predicate AllOk(ps: Layout) {
    forall i :: 0 <= i < |ps| ==> PieceOk(ps[i])
  }

  function ShowAll(ps: Layout): string
    requires AllOk(ps)
  {
    if ps == [] then "" else ShowPiece(ps[0]) + ShowAll(ps[1..])
  }

  function Items(ps: Layout): seq<Token> {
    if ps == [] then []
    else (if ps[0].Item? then [ps[0].t] else []) + Items(ps[1..])
  }

  lemma {:induction false} WellLaidIsOk(ps: Layout, inBrackets: bool)
    requires WellLaid(ps, inBrackets)
    ensures AllOk(ps)
    decreases |ps|
  {
    match ps[0]
    case Item(_) => WellLaidIsOk(ps[1..], inBrackets);
    case Gap(_) => WellLaidIsOk(ps[1..], inBrackets);
    case Break(_) =>
      if inBrackets {
        WellLaidIsOk(ps[1..], inBrackets);
      }
    case OpenBracket => WellLaidIsOk(ps[1..], true);
    case CloseBracket => WellLaidIsOk(ps[1..], false);
  }

  // ---- Reading pieces back ----

  lemma CollectSkipsBlank(c: char, s: string, inBrackets: bool)
    requires IsBlank(c)
    ensures Collect([c] + s, inBrackets) == Collect(s, inBrackets)
  {
    LexSkipsBlank(c, s);
  }

  lemma LexBreak(comment: Option<string>, tail: string)
    requires PieceOk(Break(comment))
    ensures Lex(ShowPiece(Break(comment)) + tail) == Tok(if comment.None? then Eol else Comment, tail)
  {
    var all := ShowPiece(Break(comment)) + tail;
    match comment
    case None =>
      assert all[1..] == tail;
    case Some(text) =>
      assert all[1..] == text + "\n" + tail;
      LineFromPrefix(text, tail);
  }

  lemma LexBracket(open: bool, tail: string)
    ensures Lex((if open then "(" else ")") + tail) == Tok(if open then Open else Close, tail)
  {
    assert ((if open then "(" else ")") + tail)[1..] == tail;
  }

  lemma FirstOfPiece(p: Piece)
    requires PieceOk(p) && EndsWordBefore(p)
    ensures ShowPiece(p) != "" && EndsWord(ShowPiece(p)[0])
  {
  }

  /** A printed token is collected, and collecting goes on behind it. */
  lemma CollectItem(t: Token, tail: string, inBrackets: bool)
    requires Lexable(t) && (t.Word? ==> tail != "" && EndsWord(tail[0]))
    ensures Collect(Show(t) + tail, inBrackets) == Preceded(t, Collect(tail, inBrackets))
  {
    LexShown(t, tail);
    if t.Word? && IsBlank(tail[0]) {
      CollectSkipsBlank(tail[0], tail[1..], inBrackets);
      assert [tail[0]] + tail[1..] == tail;
    }
  }

  lemma ShowFirst(ps: Layout, tail: string)
    requires ps != [] && AllOk(ps)
    ensures ShowAll(ps) + tail == ShowPiece(ps[0]) + (ShowAll(ps[1..]) + tail)
  {
  }

  /** What follows a word ends it. */
  lemma BehindWord(ps: Layout, inBrackets: bool, tail: string)
    requires WellLaid(ps, inBrackets) && AllOk(ps) && ps[0].Item? && ps[0].t.Word?
    ensures var more := ShowAll(ps[1..]) + tail; more != "" && EndsWord(more[0])
  {
    FirstOfPiece(ps[1]);
    ShowFirst(ps[1..], tail);
  }

  /** Whatever the layout, the tokens of a record are collected in their order. */
  lemma {:induction false} CollectLaidOut(ps: Layout, inBrackets: bool, tail: string)
    requires WellLaid(ps, inBrackets) && AllOk(ps)
    ensures Collect(ShowAll(ps) + tail, inBrackets) == Collected(Items(ps), tail)
    decreases |ps|
  {
    var p, more := ps[0], ShowAll(ps[1..]) + tail;
    ShowFirst(ps, tail);
    match p
    case Item(t) =>
      CollectLaidOut(ps[1..], inBrackets, tail);
      if t.Word? {
        BehindWord(ps, inBrackets, tail);
      }
      CollectItem(t, more, inBrackets);
    case Gap(c) =>
      CollectLaidOut(ps[1..], inBrackets, tail);
      CollectSkipsBlank(c, more, inBrackets);
    case Break(comment) =>
      LexBreak(comment, more);
      if inBrackets {
        CollectLaidOut(ps[1..], inBrackets, tail);
      } else {
        assert ps[1..] == [] && more == tail;
      }
    case OpenBracket =>
      CollectLaidOut(ps[1..], true, tail);
      LexBracket(true, more);
    case CloseBracket =>
      CollectLaidOut(ps[1..], false, tail);
      LexBracket(false, more);
  }

  // ---- Statements ----

  /** Past its blanks the layout starts with a token: a bracket there would be taken for a
      token of the record. */
  predicate StartsWithItem(ps: Layout) {
    ps != [] && (ps[0].Item? || (ps[0].Gap? && StartsWithItem(ps[1..])))
  }

  /** Statements that can be written out. */
  predicate Writable(raw: Raw) {
    match raw
    case OriginLine(o) => LexableWord(o)
    case TtlLine(v) => LexableWord(v)
    case IncludeLine(_) => true
    case Blank => true
    case Line(ts) => RecordTokens(ts) && forall i :: 0 <= i < |ts| ==> Lexable(ts[i])
  }

  /** Layouts of a statement. Control entries are always laid out the same. */
  predicate Fits(ps: Layout, raw: Raw) {
    match raw
    case Line(ts) => WellLaid(ps, false) && StartsWithItem(ps) && Items(ps) == ts
    case Blank => |ps| == 1 && ps[0].Break? && PieceOk(ps[0])
    case _ => ps == []
  }

  function Write(raw: Raw, ps: Layout): string
    requires Writable(raw) && Fits(ps, raw)
  {
    match raw
    case OriginLine(o) => "$ORIGIN " + o + "\n"
    case TtlLine(v) => "$TTL " + v + "\n"
    case IncludeLine(f) => "$INCLUDE " + Show(Str(f)) + "\n"
    case Blank => ShowPiece(ps[0])
    case Line(_) =>
      WellLaidIsOk(ps, false);
      ShowAll(ps)
  }

  lemma LexFirst(s: string)
    requires Lex(s).Tok? && HasValue(Lex(s).token)
    ensures NextRaw(s) == match Collect(s, false)
                          case BadRecord => BadStep
                          case Unending => StuckStep
                          case Collected(ts, rest) => Next(Line(ts), rest)
  {
  }

  lemma {:induction false} FirstIsToken(ps: Layout, tail: string)
    requires WellLaid(ps, false) && StartsWithItem(ps) && AllOk(ps)
    ensures Lex(ShowAll(ps) + tail).Tok? && HasValue(Lex(ShowAll(ps) + tail).token)
    decreases |ps|
  {
    var more := ShowAll(ps[1..]) + tail;
    ShowFirst(ps, tail);
    if ps[0].Item? {
      if ps[0].t.Word? {
        BehindWord(ps, false, tail);
      }
      LexShown(ps[0].t, more);
    } else {
      FirstIsToken(ps[1..], tail);
      LexSkipsBlank(ps[0].c, more);
    }
  }

  /** A record is read back from any layout. */
  lemma RecordIsReadBack(ps: Layout, tail: string)
    requires WellLaid(ps, false) && StartsWithItem(ps) && AllOk(ps)
    ensures NextRaw(ShowAll(ps) + tail) == Next(Line(Items(ps)), tail)
  {
    FirstIsToken(ps, tail);
    LexFirst(ShowAll(ps) + tail);
    CollectLaidOut(ps, false, tail);
  }

  lemma LexControl(word: string, tail: string)
    requires Control(word).Some?
    ensures Lex("$" + word + " " + tail) == Tok(Control(word).value, tail)
  {
    var all := "$" + word + " " + tail;
    assert all[1..] == word + (" " + tail);
    WordFromPrefix(word, " " + tail);
    assert (" " + tail)[1..] == tail;
  }

  /** A control entry is read back, and its line break becomes a blank statement. */
  lemma OriginIsReadBack(o: string, tail: string)
    requires LexableWord(o)
    ensures NextRaw("$ORIGIN " + o + "\n" + tail) == Next(OriginLine(o), "\n" + tail)
  {
    var more := o + ("\n" + tail);
    assert "$ORIGIN " + o + "\n" + tail == "$" + "ORIGIN" + " " + more;
    LexControl("ORIGIN", more);
    LexWord(o, "\n" + tail);
  }

  lemma TtlIsReadBack(v: string, tail: string)
    requires LexableWord(v)
    ensures NextRaw("$TTL " + v + "\n" + tail) == Next(TtlLine(v), "\n" + tail)
  {
    var more := v + ("\n" + tail);
    assert "$TTL " + v + "\n" + tail == "$" + "TTL" + " " + more;
    LexControl("TTL", more);
    LexWord(v, "\n" + tail);
  }

  lemma IncludeIsReadBack(f: string, tail: string)
    ensures NextRaw("$INCLUDE " + Show(Str(f)) + "\n" + tail) == Next(IncludeLine(f), "\n" + tail)
  {
    var more := Show(Str(f)) + ("\n" + tail);
    assert "$INCLUDE " + Show(Str(f)) + "\n" + tail == "$" + "INCLUDE" + " " + more;
    LexControl("INCLUDE", more);
    LexShown(Str(f), "\n" + tail);
  }

  // ---- Whole texts ----

  predicate AllWritable(raws: seq<Raw>) {
    forall i :: 0 <= i < |raws| ==> Writable(raws[i])
  }

  predicate AllFit(layouts: seq<Layout>, raws: seq<Raw>) {
    |layouts| == |raws| && forall i :: 0 <= i < |raws| ==> Fits(layouts[i], raws[i])
  }

  function WriteAll(raws: seq<Raw>, layouts: seq<Layout>): string
    requires AllWritable(raws) && AllFit(layouts, raws)
  {
    if raws == [] then "" else Write(raws[0], layouts[0]) + WriteAll(raws[1..], layouts[1..])
  }

  lemma BlankIsInvisible(tail: string, ctx: Context, w: World, depth: nat)
    ensures ParseText("\n" + tail, ctx, w, depth) == ParseText(tail, ctx, w, depth)
  {
    LexBreak(None, tail);
    assert NextRaw("\n" + tail) == Next(Blank, tail);
    ParseStep("\n" + tail, ctx, w, depth);
  }

  lemma BehindDirective(s: string, raw: Raw, tail: string, ctx: Context, w: World, depth: nat)
    requires NextRaw(s) == Next(raw, "\n" + tail)
    ensures ParseText(s, ctx, w, depth) == RunNext(raw, tail, ctx, w, depth)
  {
    ParseStep(s, ctx, w, depth);
    var st := Meaning(raw, ctx, w.checks);
    if st.Some? {
      BlankIsInvisible(tail, NextContext(st.value, ctx), w, depth);
    }
  }

  /** Reading a written statement back and going on. */
  lemma WrittenStep(raw: Raw, ps: Layout, tail: string, ctx: Context, w: World, depth: nat)
    requires Writable(raw) && Fits(ps, raw)
    ensures ParseText(Write(raw, ps) + tail, ctx, w, depth) == RunNext(raw, tail, ctx, w, depth)
  {
    var s := Write(raw, ps) + tail;
    match raw
    case Line(ts) =>
      WellLaidIsOk(ps, false);
      RecordIsReadBack(ps, tail);
      ParseStep(s, ctx, w, depth);
    case Blank =>
      LexBreak(ps[0].comment, tail);
      ParseStep(s, ctx, w, depth);
    case OriginLine(o) =>
      OriginIsReadBack(o, tail);
      BehindDirective(s, raw, tail, ctx, w, depth);
    case TtlLine(v) =>
      TtlIsReadBack(v, tail);
      BehindDirective(s, raw, tail, ctx, w, depth);
    case IncludeLine(f) =>
      IncludeIsReadBack(f, tail);
      BehindDirective(s, raw, tail, ctx, w, depth);
  }

  lemma RunUnfolds(raw: Raw, raws: seq<Raw>, tail: string, ctx: Context, w: World, depth: nat)
    requires RawOk(raw) && RawsOk(raws)
    requires Meaning(raw, ctx, w.checks).Some? ==>
               var ctx' := NextContext(Meaning(raw, ctx, w.checks).value, ctx);
               ParseText(tail, ctx', w, depth) == Run(raws, AtEnd, ctx', w, depth)
    ensures RunNext(raw, tail, ctx, w, depth) == Run([raw] + raws, AtEnd, ctx, w, depth)
  {
    assert ([raw] + raws)[1..] == raws;
  }

  /** Statements that are written out in whatever layout and parsed produce what running
      them produces. */
  lemma {:induction false} WrittenMeansTheSame(raws: seq<Raw>, layouts: seq<Layout>, ctx: Context, w: World, depth: nat)
    requires AllWritable(raws) && AllFit(layouts, raws)
    ensures RawsOk(raws)
    ensures ParseText(WriteAll(raws, layouts), ctx, w, depth) == Run(raws, AtEnd, ctx, w, depth)
    decreases |raws|
  {
    if raws == [] {
      ParseStep("", ctx, w, depth);
    } else {
      var raw, tail := raws[0], WriteAll(raws[1..], layouts[1..]);
      WrittenStep(raw, layouts[0], tail, ctx, w, depth);
      var st := Meaning(raw, ctx, w.checks);
      var ctx' := if st.Some? then NextContext(st.value, ctx) else ctx;
      WrittenMeansTheSame(raws[1..], layouts[1..], ctx', w, depth);
      RunUnfolds(raw, raws[1..], tail, ctx, w, depth);
      assert raws == [raw] + raws[1..];
    }
  }
}
