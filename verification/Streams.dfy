/** `std::istream` over a fixed text: the parts that the repository's readers use. */
module Streams {
  import opened Text

  class InputStream {
    const text: string
    var pos: nat
    var eof: bool   // eofbit
    var fail: bool  // failbit

    ghost predicate Valid()
      reads this
    {
      pos <= |text|
    }

    predicate Good()
      reads this
    {
      !eof && !fail
    }

    /** The words that further extractions can still see: none once the stream is not good. */
    ghost function Unread(): seq<string>
      requires Valid()
      reads this
    {
      if Good() then WordsFrom(text, pos) else []
    }

    constructor (text: string)
      ensures Valid() && Good() && pos == 0 && this.text == text
    {
      this.text := text;
      pos, eof, fail := 0, false, false;
    }

    /** `stream >> word`; the caller's variable keeps its value when nothing is extracted. */
    method Extract(previous: string) returns (word: string)
      requires Valid()
      modifies this
      ensures Valid()
      ensures fail <==> old(Unread()) == []
      ensures fail ==> word == previous && Unread() == []
      ensures !fail ==> [word] + Unread() == old(Unread()) && IsWord(word)
    {
      word := previous;
      if !Good() {
        fail := true;
        return;
      }
      var start := pos;
      while pos < |text| && IsSpace(text[pos])
        invariant start <= pos <= |text| && Good()
        invariant forall i :: start <= i < pos ==> IsSpace(text[i])
      {
        pos := pos + 1;
      }
      SpaceEndIs(text, start, pos);
      if pos == |text| {
        eof, fail := true, true;
        return;
      }
      var from := pos;
      while pos < |text| && !IsSpace(text[pos])
        invariant from <= pos <= |text| && Good()
        invariant from < pos || !IsSpace(text[pos])
        invariant forall i :: from <= i < pos ==> !IsSpace(text[i])
      {
        pos := pos + 1;
      }
      WordEndIs(text, from, pos);
      word := text[from..pos];
      assert [word] + WordsFrom(text, pos) == WordsFrom(text, start);
      if pos == |text| {
        assert WordsFrom(text, pos) == [];
        eof := true;
      }
    }

    /** `getline(stream, line, delimiter)`; a stream that is not good leaves `line` alone. */
    method GetLine(previous: string, delimiter: char) returns (line: string)
      requires Valid()
      modifies this
      ensures Valid()
      ensures !old(Good()) ==> fail && eof == old(eof) && line == previous && pos == old(pos)
      ensures old(Good()) ==>
                var end := RunEnd(text, old(pos), delimiter);
                && line == text[old(pos)..end]
                && pos == (if end < |text| then end + 1 else end)
                && (eof <==> end == |text|)
                && (fail <==> old(pos) == |text|)
    {
      line := previous;
      if !Good() {
        fail := true;
        return;
      }
      var from := pos;
      while pos < |text| && text[pos] != delimiter
        invariant from <= pos <= |text| && Good()
        invariant forall i :: from <= i < pos ==> text[i] != delimiter
      {
        pos := pos + 1;
      }
      line := text[from..pos];
      RunEndIs(text, from, delimiter, pos);
      if pos < |text| {
        pos := pos + 1;
      } else {
        eof := true;
        fail := line == "";
      }
    }
  }
}
