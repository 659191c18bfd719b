/** The zone file lexer, as methods over the reader and as a function of the text. */
module ZoneToken {
  import opened Dns
  import opened Text
  import opened ZoneReader

  datatype Token =
    | Origin | Include | Ttl | At | Open | Close | Eol | Comment
    | Str(text: string)
    | Word(text: string)
  {
    function Value(): Option<string> {
      match this
      case At => Some("@")
      case Str(s) => Some(s)
      case Word(s) => Some(s)
      case _ => None
    }
  }

  // ---- Scanning, on text ----

  /** What a scanning loop makes of the text: Endless when it reads on at the end of the
      file for ever, Malformed when it throws. */
  datatype Scan = Scanned(text: string, rest: string) | Malformed | Endless

  predicate IsBlank(c: char) {
    c == ' ' || c == '\t'
  }

  /** Characters that end a word. Blanks are consumed with it, the others are put back. */
  predicate EndsWord(c: char) {
    IsBlank(c) || c == '\n' || c == '(' || c == ')'
  }

  predicate StartsWord(c: char) {
    IsAlnum(c) || c == '\\' || c == '.' || c == '*' || c == '-' || c == '+'
  }

  function SkipBlanks(s: string): (r: string)
    ensures |r| <= |s|
    ensures r != "" ==> !IsBlank(r[0])
  {
    if s != "" && IsBlank(s[0]) then SkipBlanks(s[1..]) else s
  }

  function Before(text: string, r: Scan): Scan {
    if r.Scanned? then Scanned(text + r.text, r.rest) else r
  }

  function WordFrom(s: string): (r: Scan)
    ensures r.Scanned? ==> |r.rest| <= |s|
  {
    if s == "" then Endless
    else if IsBlank(s[0]) then Scanned("", s[1..])
    else if EndsWord(s[0]) then Scanned("", s)
    else Before([s[0]], WordFrom(s[1..]))
  }

  function LineFrom(s: string): (r: Scan)
    ensures r.Scanned? ==> |r.rest| < |s|
    ensures !r.Malformed?
  {
    if s == "" then Endless
    else if s[0] == '\n' then Scanned("", s[1..])
    else Before([s[0]], LineFrom(s[1..]))
  }

  /** The contents of a string up to the closing quote. A backslash takes the next
      character as it is, except a newline, the end of the file, or a digit: the branch
      for \DDD throws whatever the digits are. */
  function StringFrom(s: string): (r: Scan)
    ensures r.Scanned? ==> |r.rest| < |s|
  {
    if s == "" then Endless
    else if s[0] == '"' then Scanned("", s[1..])
    else if s[0] != '\\' then Before([s[0]], StringFrom(s[1..]))
    else if |s| == 1 || s[1] == '\n' || IsDigit(s[1]) then Malformed
    else Before([s[1]], StringFrom(s[2..]))
  }

  // ---- The lexer, on text ----

  datatype Lexed = End | Tok(token: Token, rest: string) | Raise | Hang

  function Control(word: string): Option<Token> {
    if word == "TTL" then Some(Ttl)
    else if word == "ORIGIN" then Some(Origin)
    else if word == "INCLUDE" then Some(Include)
    else None
  }

  /** The next token of a text without carriage returns. */
  function Lex(s: string): (r: Lexed)
    ensures r.Tok? ==> |r.rest| < |s|
  {
    LexAt(SkipBlanks(s))
  }

  function LexAt(s: string): (r: Lexed)
    ensures r.Tok? ==> |r.rest| < |s|
  {
    if s == "" then End
    else if s[0] == ';' then
      match LineFrom(s[1..])
      case Scanned(_, rest) => Tok(Comment, rest)
      case _ => Hang
    else if s[0] == '$' then
      match WordFrom(s[1..])
      case Scanned(word, rest) => if Control(word).Some? then Tok(Control(word).value, rest) else Raise
      case _ => Hang
    else if s[0] == '@' then Tok(At, s[1..])
    else if s[0] == '\n' then Tok(Eol, s[1..])
    else if s[0] == '(' then Tok(Open, s[1..])
    else if s[0] == ')' then Tok(Close, s[1..])
    else if s[0] == '"' then
      match StringFrom(s[1..])
      case Scanned(text, rest) => Tok(Str(text), rest)
      case Malformed => Raise
      case Endless => Hang
    else if StartsWord(s[0]) then
      match WordFrom(s[1..])
      case Scanned(word, rest) => Tok(Word([s[0]] + word), rest)
      case _ => Hang
    else Raise
  }

  // ---- Printing tokens ----

  /** Words the lexer can read back. */
  predicate LexableWord(w: string) {
    w != "" && StartsWord(w[0]) && forall i :: 0 <= i < |w| ==> !EndsWord(w[i])
  }

  /** Tokens that may stand in a record and can be read back. */
  predicate Lexable(t: Token) {
    t == At || t.Str? || (t.Word? && LexableWord(t.text))
  }

  function Escape(s: string): string {
    if s == "" then ""
    else (if s[0] == '"' || s[0] == '\\' then ['\\', s[0]] else [s[0]]) + Escape(s[1..])
  }

  function Show(t: Token): string
    requires Lexable(t)
  {
    match t
    case At => "@"
    case Str(s) => "\"" + Escape(s) + "\""
    case Word(w) => w
  }

  /** What follows a token, as the lexer goes on: a word takes a blank after it along. */
  function AfterToken(t: Token, tail: string): string {
    if t.Word? && tail != "" && IsBlank(tail[0]) then tail[1..] else tail
  }

  lemma {:induction false} WordFromPrefix(w: string, tail: string)
    requires forall i :: 0 <= i < |w| ==> !EndsWord(w[i])
    requires tail != "" && EndsWord(tail[0])
    ensures WordFrom(w + tail) == Scanned(w, if IsBlank(tail[0]) then tail[1..] else tail)
  {
    if w == "" {
      assert w + tail == tail;
    } else {
      assert (w + tail)[0] == w[0] && (w + tail)[1..] == w[1..] + tail;
      WordFromPrefix(w[1..], tail);
      assert w == [w[0]] + w[1..];
    }
  }

  lemma EscapedChar(c: char, more: string)
    requires c == '"' || c == '\\'
    ensures StringFrom(['\\', c] + more) == Before([c], StringFrom(more))
  {
    assert (['\\', c] + more)[2..] == more;
  }

  lemma PlainChar(c: char, more: string)
    requires c != '"' && c != '\\'
    ensures StringFrom([c] + more) == Before([c], StringFrom(more))
  {
    assert ([c] + more)[1..] == more;
  }

  lemma InFront<T>(a: seq<T>, b: seq<T>, c: seq<T>, d: seq<T>)
    ensures a + b + c + d == a + (b + c + d)
  {
  }

  lemma EscapedTail(s: string)
    requires s != ""
    ensures s == [s[0]] + s[1..]
    ensures Escape(s) == (if s[0] == '"' || s[0] == '\\' then ['\\', s[0]] else [s[0]]) + Escape(s[1..])
  {
  }

  lemma {:induction false} StringFromEscape(s: string, tail: string)
    ensures StringFrom(Escape(s) + "\"" + tail) == Scanned(s, tail)
  {
    if s == "" {
      assert ("\"" + tail)[1..] == tail && Escape(s) + "\"" + tail == "\"" + tail;
    } else {
      var more := Escape(s[1..]) + "\"" + tail;
      EscapedTail(s);
      StringFromEscape(s[1..], tail);
      if s[0] == '"' || s[0] == '\\' {
        EscapedChar(s[0], more);
        InFront(['\\', s[0]], Escape(s[1..]), "\"", tail);
      } else {
        PlainChar(s[0], more);
        InFront([s[0]], Escape(s[1..]), "\"", tail);
      }
    }
  }

  lemma {:induction false} LineFromPrefix(text: string, tail: string)
    requires '\n' !in text
    ensures LineFrom(text + "\n" + tail) == Scanned(text, tail)
  {
    var all := text + "\n" + tail;
    if text == "" {
      assert all == "\n" + tail;
      assert all[1..] == tail;
    } else {
      assert all[0] == text[0] && all[1..] == text[1..] + "\n" + tail;
      LineFromPrefix(text[1..], tail);
      assert text == [text[0]] + text[1..];
    }
  }

  lemma LexAtSign(tail: string)
    ensures Lex("@" + tail) == Tok(At, tail)
  {
    assert ("@" + tail)[1..] == tail;
  }

  lemma LexString(s: string, tail: string)
    ensures Lex("\"" + Escape(s) + "\"" + tail) == Tok(Str(s), tail)
  {
    var all := "\"" + Escape(s) + "\"" + tail;
    var more := Escape(s) + "\"" + tail;
    assert all == ['"'] + more;
    assert all[1..] == more;
    StringFromEscape(s, tail);
  }

  lemma LexWord(w: string, tail: string)
    requires LexableWord(w) && tail != "" && EndsWord(tail[0])
    ensures Lex(w + tail) == Tok(Word(w), AfterToken(Word(w), tail))
  {
    var all := w + tail;
    assert all[0] == w[0] && all[1..] == w[1..] + tail;
    WordFromPrefix(w[1..], tail);
    assert w == [w[0]] + w[1..];
  }

  predicate LetterOrDigit(c: char) {
    'a' <= c <= 'z' || 'A' <= c <= 'Z' || '0' <= c <= '9'
  }

  predicate WordSign(c: char) {
    c == '\\' || c == '.' || c == '*' || c == '-' || c == '+'
  }

  predicate TokenSign(c: char) {
    c == ';' || c == '$' || c == '@' || c == '\n' || c == '(' || c == ')' || c == '"'
  }

  lemma WordAlone(c: char, s: string, tail: string)
    requires s == [c] + " " + tail && StartsWord(c) && !IsBlank(c)
    ensures WordFrom(s[1..]) == Scanned("", tail) && [c] + "" == [c]
  {
    assert s[1..] == " " + tail && (" " + tail)[1..] == tail;
  }

  /** A character alone is a word exactly when it is a letter, a digit or one of five signs,
      and refused unless it starts a word or another token. */
  lemma FirstCharacters(c: char, tail: string)
    requires c != ' ' && c != '\t'
    ensures Lex([c] + " " + tail) == Tok(Word([c]), tail) <==> LetterOrDigit(c) || WordSign(c)
    ensures !LetterOrDigit(c) && !WordSign(c) && !TokenSign(c) ==> Lex([c] + " " + tail) == Raise
  {
    var s := [c] + " " + tail;
    assert SkipBlanks(s) == s && s[0] == c;
    if StartsWord(c) {
      WordAlone(c, s, tail);
    }
  }

  lemma {:induction false} WordFromStarts(w: string, s: string)
    requires forall i :: 0 <= i < |w| ==> !EndsWord(w[i])
    ensures WordFrom(w + s) == Before(w, WordFrom(s))
  {
    if w == "" {
      assert w + s == s;
    } else {
      assert (w + s)[0] == w[0] && (w + s)[1..] == w[1..] + s;
      WordFromStarts(w[1..], s);
      assert w == [w[0]] + w[1..];
    }
  }

  /** A word goes on up to a blank, the end of the line or a bracket, and no further. */
  lemma WordEnds(w: string, c: char, tail: string)
    requires LexableWord(w)
    ensures (exists rest :: Lex(w + ([c] + tail)) == Tok(Word(w), rest)) <==> c == ' ' || c == '\t' || c == '\n' || c == '(' || c == ')'
  {
    var s := w + ([c] + tail);
    assert s[0] == w[0] && s[1..] == w[1..] + ([c] + tail);
    WordFromStarts(w[1..], [c] + tail);
    assert w == [w[0]] + w[1..];
    assert ([c] + tail)[1..] == tail;
    if EndsWord(c) {
      LexWord(w, [c] + tail);
    }
  }

  /** Every token that may stand in a record is read back as printed. */
  lemma LexShown(t: Token, tail: string)
    requires Lexable(t) && (t.Word? ==> tail != "" && EndsWord(tail[0]))
    ensures Lex(Show(t) + tail) == Tok(t, AfterToken(t, tail))
  {
    match t
    case At => LexAtSign(tail);
    case Str(s) => LexString(s, tail);
    case Word(w) => LexWord(w, tail);
  }

  lemma {:induction false} WordFromStops(s: string)
    ensures WordFrom(s).Scanned? ==> forall i :: 0 <= i < |WordFrom(s).text| ==> !EndsWord(WordFrom(s).text[i])
  {
    if s != "" && !EndsWord(s[0]) {
      WordFromStops(s[1..]);
    }
  }

  /** Every word, string and '@' the lexer finds can be printed and read back. */
  lemma LexGivesLexable(s: string)
    ensures Lex(s).Tok? && (Lex(s).token.Word? || Lex(s).token.Str? || Lex(s).token.At?) ==> Lexable(Lex(s).token)
  {
    var r := SkipBlanks(s);
    if r != "" {
      WordFromStops(r[1..]);
    }
  }

  /** Leading blanks change nothing. */
  lemma LexSkipsBlank(c: char, s: string)
    requires IsBlank(c)
    ensures Lex([c] + s) == Lex(s)
  {
    assert ([c] + s)[1..] == s;
  }

  // ---- The lexer, over the reader ----

  lemma BeforeBefore(text: string, c: char, r: Scan)
    ensures Before(text, Before([c], r)) == Before(text + [c], r)
  {
    if r.Scanned? {
      assert text + ([c] + r.text) == text + [c] + r.text;
    }
  }

  /** consume_whitespace. */
  method ConsumeWhitespace(f: Reader)
    requires f.Valid()
    modifies f
    ensures f.Valid() && f.Pending() == SkipBlanks(old(f.Pending()))
  {
    while true
      invariant f.Valid() && SkipBlanks(f.Pending()) == SkipBlanks(old(f.Pending()))
      decreases |f.Pending()|
    {
      var c := f.Read();
      if c != Some(' ') && c != Some('\t') {
        f.Putback(c);
        return;
      }
    }
  }

  lemma BeforeEnd(text: string, rest: string)
    ensures Before(text, Scanned("", rest)) == Scanned(text, rest)
  {
  }

  lemma WordTurn(p: string)
    requires p != "" && !EndsWord(p[0])
    ensures WordFrom(p) == Before([p[0]], WordFrom(p[1..]))
  {
  }

  lemma LineTurn(p: string)
    requires p != "" && p[0] != '\n'
    ensures LineFrom(p) == Before([p[0]], LineFrom(p[1..]))
  {
  }

  lemma StringTurn(p: string)
    requires p != "" && p[0] != '"' && p[0] != '\\'
    ensures StringFrom(p) == Before([p[0]], StringFrom(p[1..]))
  {
  }

  lemma EscapeTurn(p: string)
    requires |p| > 1 && p[0] == '\\' && p[1] != '\n' && !IsDigit(p[1])
    ensures StringFrom(p) == Before([p[1]], StringFrom(p[1..][1..]))
  {
    assert p[1..][1..] == p[2..];
  }

  /** consume_to_eol. False stands for the loop never ending. */
  method ConsumeToEol(f: Reader) returns (ends: bool)
    requires f.Valid()
    modifies f
    ensures f.Valid()
    ensures var r := LineFrom(old(f.Pending()));
            ends == r.Scanned? && (ends ==> f.Pending() == r.rest)
  {
    ghost var s := f.Pending();
    ghost var text := "";
    while true
      invariant f.Valid() && LineFrom(s) == Before(text, LineFrom(f.Pending()))
      decreases |f.Pending()|
    {
      ghost var p := f.Pending();
      var c := f.Read();
      if c == None {
        return false;
      }
      if c == Some('\n') {
        return true;
      }
      LineTurn(p);
      BeforeBefore(text, p[0], LineFrom(f.Pending()));
      text := text + [p[0]];
    }
  }

  /** read_to_next_token. */
  method ReadToNextToken(f: Reader) returns (ends: bool, res: string)
    requires f.Valid()
    modifies f
    ensures f.Valid()
    ensures var r := WordFrom(old(f.Pending()));
            ends == r.Scanned? && (ends ==> res == r.text && f.Pending() == r.rest)
  {
    ghost var s := f.Pending();
    res := "";
    while true
      invariant f.Valid() && WordFrom(s) == Before(res, WordFrom(f.Pending()))
      decreases |f.Pending()|
    {
      ghost var p := f.Pending();
      var c := f.Read();
      if c == None {
        return false, "";
      }
      if c == Some(' ') || c == Some('\t') {
        BeforeEnd(res, f.Pending());
        return true, res;
      } else if c == Some('\n') || c == Some('(') || c == Some(')') {
        f.Putback(c);
        assert f.Pending() == p;
        BeforeEnd(res, p);
        return true, res;
      } else {
        WordTurn(p);
        BeforeBefore(res, p[0], WordFrom(f.Pending()));
        res := res + [c.value];
      }
    }
  }

  datatype Scanning = Text(text: string) | Throws | Spins

  /** read_string. */
  method ReadQuoted(f: Reader) returns (r: Scanning)
    requires f.Valid()
    modifies f
    ensures f.Valid()
    ensures match StringFrom(old(f.Pending()))
            case Scanned(text, rest) => r == Text(text) && f.Pending() == rest
            case Malformed => r == Throws
            case Endless => r == Spins
  {
    ghost var s := f.Pending();
    var res := "";
    while true
      invariant f.Valid() && StringFrom(s) == Before(res, StringFrom(f.Pending()))
      decreases |f.Pending()|
    {
      ghost var p := f.Pending();
      var c := f.Read();
      if c == None {
        return Spins;
      }
      if c == Some('"') {
        BeforeEnd(res, f.Pending());
        return Text(res);
      } else if c == Some('\\') {
        c := f.Read();
        if c == None || c == Some('\n') {
          return Throws;
        } else if IsDigit(c.value) {
          var c2 := f.Read();
          var c3 := f.Read();
          return Throws;
        }
        EscapeTurn(p);
      } else {
        StringTurn(p);
      }
      BeforeBefore(res, c.value, StringFrom(f.Pending()));
      res := res + [c.value];
    }
  }

  datatype Outcome = Got(token: Token) | NoToken | Threw | Stuck

  /** zone_file_token.read. NoToken is the end of the file; Stuck stands for a loop that
      reads on at the end of the file for ever. */
  method ReadToken(f: Reader) returns (r: Outcome)
    requires f.Valid()
    modifies f
    ensures f.Valid()
    ensures match Lex(old(f.Pending()))
            case End => r == NoToken && f.Pending() == ""
            case Tok(t, rest) => r == Got(t) && f.Pending() == rest
            case Raise => r == Threw
            case Hang => r == Stuck
  {
    ConsumeWhitespace(f);
    var c := f.Read();
    if c == None {
      return NoToken;
    }
    match c.value
    case ';' =>
      var ends := ConsumeToEol(f);
      r := if ends then Got(Comment) else Stuck;
    case '$' =>
      var ends, word := ReadToNextToken(f);
      if !ends {
        r := Stuck;
      } else if word == "TTL" {
        r := Got(Ttl);
      } else if word == "ORIGIN" {
        r := Got(Origin);
      } else if word == "INCLUDE" {
        r := Got(Include);
      } else {
        r := Threw;
      }
    case '@' => r := Got(At);
    case '\n' => r := Got(Eol);
    case '(' => r := Got(Open);
    case ')' => r := Got(Close);
    case '"' =>
      var text := ReadQuoted(f);
      r := match text
           case Text(s) => Got(Str(s))
           case Throws => Threw
           case Spins => Stuck;
    case d =>
      if StartsWord(d) {
        var ends, word := ReadToNextToken(f);
        r := if ends then Got(Word([d] + word)) else Stuck;
      } else {
        r := Threw;
      }
  }
}
