/** The input streams of the program: reading one character at a time, with pushback. */
module CharStreams {
  /** A std::istream: a text, a position and the stream's good() bit. */
  class CharStream {
    const text: string
    var pos: nat
    var good: bool

    ghost predicate Valid()
      reads this
    {
      pos <= |text|
    }

    ghost function Unread(): string
      requires Valid()
      reads this
    {
      if good then text[pos..] else ""
    }

    constructor (text: string)
      ensures Valid() && good && Unread() == text
    {
      this.text := text;
      pos, good := 0, true;
    }

    /** Reading past the end clears the good bit and delivers no character. */
    method Get() returns (c: char)
      requires Valid()
      modifies this
      ensures Valid() && good == (old(Unread()) != "")
      ensures old(Unread()) != "" ==> c == old(Unread())[0] && Unread() == old(Unread())[1..] && pos == old(pos) + 1
    {
      if good && pos < |text| {
        c := text[pos];
        pos := pos + 1;
      } else {
        c := '\0';
        good := false;
      }
    }

    method Unget()
      requires Valid() && good && 0 < pos
      modifies this
      ensures Valid() && good && pos == old(pos) - 1
      ensures Unread() == [text[pos]] + old(Unread())
    {
      pos := pos - 1;
    }
  }
}
