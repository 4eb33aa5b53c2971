/** Splitting a child's output into lines while it arrives in arbitrary chunks. */
module OutputLines {

  /** Split at every line feed, together with a carriage return right before it. There is
      always a last part, which holds no line feed. */
  function SplitLines(text: string): (parts: seq<string>)
    ensures parts != []
    decreases |text|
  {
    if text == "" then [""]
    else if text[0] == '\n' then [""] + SplitLines(text[1..])
    else if |text| > 1 && text[0] == '\r' && text[1] == '\n' then [""] + SplitLines(text[2..])
    else
      var rest := SplitLines(text[1..]);
      [[text[0]] + rest[0]] + rest[1..]
  }

  datatype Collected = Collected(lines: seq<string>, carry: string)

  function CollectOutputLines(carry: string, chunk: string): Collected {
    var parts := SplitLines(carry + chunk);
    Collected(parts[..|parts| - 1], parts[|parts| - 1])
  }

  /** The lines and the carry after a sequence of chunks. */
  function CollectAll(chunks: seq<string>): Collected {
    if chunks == [] then Collected([], "")
    else
      var before := CollectAll(chunks[..|chunks| - 1]);
      var next := CollectOutputLines(before.carry, chunks[|chunks| - 1]);
      Collected(before.lines + next.lines, next.carry)
  }

  function Concat(chunks: seq<string>): string {
    if chunks == [] then "" else Concat(chunks[..|chunks| - 1]) + chunks[|chunks| - 1]
  }

  /** More text changes only what follows the last line feed. */
  lemma {:induction false} SplitMore(text: string, more: string)
    ensures var parts := SplitLines(text);
            SplitLines(text + more) == parts[..|parts| - 1] + SplitLines(parts[|parts| - 1] + more)
    decreases |text|
  {
    if text == "" {
      assert text + more == more && [""][..0] == [];
    } else if text[0] == '\n' {
      SplitMore(text[1..], more);
      SplitMoreFeed(text, more, 1);
    } else if |text| > 1 && text[0] == '\r' && text[1] == '\n' {
      SplitMore(text[2..], more);
      SplitMoreFeed(text, more, 2);
    } else {
      SplitMoreChar(text, more);
    }
  }

  lemma SplitMoreFeed(text: string, more: string, n: nat)
    requires (n == 1 && text != "" && text[0] == '\n') || (n == 2 && |text| > 1 && text[0] == '\r' && text[1] == '\n')
    requires var rest := SplitLines(text[n..]);
             SplitLines(text[n..] + more) == rest[..|rest| - 1] + SplitLines(rest[|rest| - 1] + more)
    ensures var parts := SplitLines(text);
            SplitLines(text + more) == parts[..|parts| - 1] + SplitLines(parts[|parts| - 1] + more)
  {
    assert (text + more)[n..] == text[n..] + more;
    PutFirst(SplitLines(text[n..]), more);
  }

  lemma PutFirst(rest: seq<string>, more: string)
    requires rest != []
    ensures var parts := [""] + rest;
            && parts[|parts| - 1] == rest[|rest| - 1]
            && parts[..|parts| - 1] + SplitLines(rest[|rest| - 1] + more)
               == [""] + (rest[..|rest| - 1] + SplitLines(rest[|rest| - 1] + more))
  {
    var parts := [""] + rest;
    assert parts[..|parts| - 1] == [""] + rest[..|rest| - 1];
  }

  lemma {:induction false} SplitMoreChar(text: string, more: string)
    requires text != "" && text[0] != '\n' && !(|text| > 1 && text[0] == '\r' && text[1] == '\n')
    ensures var parts := SplitLines(text);
            SplitLines(text + more) == parts[..|parts| - 1] + SplitLines(parts[|parts| - 1] + more)
    decreases |text|, 0
  {
    var rest := SplitLines(text[1..]);
    var parts := SplitLines(text);
    assert (text + more)[1..] == text[1..] + more;
    if |rest| == 1 {
      NoLineFeed(text[1..]);
      assert [text[0]] + text[1..] == text;
      assert parts == [text] && parts[..0] == [];
    } else {
      SplitMore(text[1..], more);
      var first := [text[0]] + rest[0];
      assert parts[|parts| - 1] == rest[|rest| - 1];
      assert parts[..|parts| - 1] == [first] + rest[1..|rest| - 1];
      assert |text| > 1;
    }
  }

  /** A text of one part is that part. */
  lemma {:induction false} NoLineFeed(text: string)
    requires |SplitLines(text)| == 1
    ensures SplitLines(text) == [text]
  {
    if text == "" {
    } else {
      assert [text[0]] + text[1..] == text;
      if text[0] != '\n' && !(|text| > 1 && text[0] == '\r' && text[1] == '\n') {
        NoLineFeed(text[1..]);
      }
    }
  }

  /** A text without a line feed is one part. */
  lemma {:induction false} OneLine(text: string)
    requires '\n' !in text
    ensures SplitLines(text) == [text]
  {
    if text == "" {
    } else {
      OneLine(text[1..]);
      assert [text[0]] + text[1..] == text;
    }
  }

  /** A line ends at its line feed, and the carriage return right before it goes with it. */
  lemma {:induction false} LineEnds(line: string, more: string)
    requires '\n' !in line
    ensures SplitLines(line + "\r\n" + more) == [line] + SplitLines(more)
    ensures line == "" || line[|line| - 1] != '\r' ==> SplitLines(line + "\n" + more) == [line] + SplitLines(more)
  {
    if line == "" {
      assert ("" + "\n" + more)[1..] == more && ("" + "\r\n" + more)[2..] == more;
    } else {
      LineEnds(line[1..], more);
      assert (line + "\r\n" + more)[1..] == line[1..] + "\r\n" + more;
      assert (line + "\n" + more)[1..] == line[1..] + "\n" + more;
      assert [line[0]] + line[1..] == line;
    }
  }

  /** However the output is cut into chunks, even between a carriage return and its line
      feed, the lines and the carry are those of the whole text. */
  lemma {:induction false} ChunksDoNotMatter(chunks: seq<string>)
    ensures var parts := SplitLines(Concat(chunks));
            CollectAll(chunks) == Collected(parts[..|parts| - 1], parts[|parts| - 1])
  {
    if chunks == [] {
    } else {
      ChunksDoNotMatter(chunks[..|chunks| - 1]);
      var text, more := Concat(chunks[..|chunks| - 1]), chunks[|chunks| - 1];
      var parts := SplitLines(text);
      SplitMore(text, more);
      LastOfConcat(parts[..|parts| - 1], SplitLines(parts[|parts| - 1] + more));
    }
  }

  lemma LastOfConcat(lines: seq<string>, more: seq<string>)
    requires more != []
    ensures var all := lines + more;
            all[..|all| - 1] == lines + more[..|more| - 1] && all[|all| - 1] == more[|more| - 1]
  {
  }
}
