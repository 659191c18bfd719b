/** The character reader under the zone file lexer: one character of putback, carriage
    returns skipped, lines counted. */
module ZoneReader {
  import opened Dns
  import opened Text

  function Newlines(s: string): nat {
    if s == "" then 0 else Newlines(s[..|s|-1]) + (if s[|s|-1] == '\n' then 1 else 0)
  }

  class Reader {
    const file: string
    var pos: nat
    var line: int
    var putBack: Option<Option<char>>

    /** What is still to be read: a put back character, then the file without '\r'. */
    ghost function Pending(): string
      requires pos <= |file|
      reads this
    {
      (if putBack.Some? && putBack.value.Some? then [putBack.value.value] else "") + Without(file[pos..], '\r')
    }

    /** An empty string is only ever put back at the end of the file, and the line is one
        more than the newlines handed out and not put back. */
    ghost predicate Valid()
      reads this
    {
      && pos <= |file|
      && (putBack == Some(None) ==> Without(file[pos..], '\r') == "")
      && line == 1 + Newlines(file[..pos]) - (if putBack == Some(Some('\n')) then 1 else 0)
    }

    constructor (file: string)
      ensures Valid() && this.file == file && Pending() == Without(file, '\r') && line == 1 && putBack == None
    {
      this.file, pos, line, putBack := file, 0, 1, None;
      new;
      assert file[0..] == file;
    }

    /** The next character; None is the empty string read at the end of the file. */
    method Read() returns (c: Option<char>)
      requires Valid()
      modifies this
      ensures Valid() && putBack == None
      ensures old(Pending()) == "" ==> c == None && Pending() == ""
      ensures old(Pending()) != "" ==> c == Some(old(Pending())[0]) && Pending() == old(Pending())[1..]
      ensures c == Some('\n') ==> line == old(line) + 1
      ensures c != Some('\n') ==> line == old(line)
      decreases |file| - pos
    {
      match putBack
      case Some(p) =>
        c := p;
        if c == Some('\n') {
          line := line + 1;
        }
        putBack := None;
      case None =>
        if pos == |file| {
          return None;
        }
        var d := file[pos];
        assert file[..pos+1][..pos] == file[..pos];
        assert file[pos..][1..] == file[pos+1..];
        pos := pos + 1;
        if d == '\n' {
          line := line + 1;
          c := Some(d);
        } else if d == '\r' {
          c := Read();
        } else {
          c := Some(d);
        }
    }

    /** Undoes the last read. */
    method Putback(c: Option<char>)
      requires Valid() && putBack == None && (c == None ==> Pending() == "")
      modifies this`putBack, this`line
      ensures Valid() && Pending() == (if c == None then "" else [c.value]) + old(Pending())
      ensures line == old(line) - (if c == Some('\n') then 1 else 0)
    {
      putBack := Some(c);
      if c == Some('\n') {
        line := line - 1;
      }
    }
  }
}
