/** Quoting words for a shell command line, and the word reader of the POSIX shell that undoes it. */
module ShellQuote {
  import opened Text

  // ----- the quoting functions -----

  /** `s` with every single quote replaced. */
  function ReplaceQuotes(s: string, replacement: string): string {
    if s == "" then ""
    else (if s[0] == '\'' then replacement else [s[0]]) + ReplaceQuotes(s[1..], replacement)
  }

  function ShellQuote(value: string): string {
    "'" + ReplaceQuotes(value, "'\\''") + "'"
  }

  function ShellEscapeForSh(value: string): string {
    ReplaceQuotes(value, "'\"'\"'")
  }

  function QuoteAll(values: seq<string>): seq<string> {
    if values == [] then [] else [ShellQuote(values[0])] + QuoteAll(values[1..])
  }

  /** The command that the release check hands to bash, from `exec` on. */
  function ParallelsCommand(timeoutBin: string, forwarded: seq<string>): string {
    Join(["exec", ShellQuote(timeoutBin), "--foreground", "150m"] + QuoteAll(forwarded), " ")
  }

  // ----- the reader: POSIX.1-2017, Shell Command Language, sections 2.2.1 to 2.2.3, 2.3 and 2.6.7 -----

  datatype Quoting = Unquoted | Escaped | Single | Double | DoubleEscaped

  /** The word being read, if one has begun, and the words before it; or text that is more than plain words. */
  datatype Reader = Reader(quoting: Quoting, word: Option<string>, words: seq<string>) | Refused

  const NUL := 0 as char
  const NEWLINE := 10 as char
  const TAB := 9 as char

  /** Characters that, unquoted, begin an operator, an expansion, a pattern or a comment. */
  predicate IsSpecial(c: char) {
    c in {'|', '&', ';', '<', '>', '(', ')', '$', '`', '*', '?', '[', '#', '~', NEWLINE}
  }

  function Begun(r: Reader): string
    requires r.Reader?
  {
    if r.word.Some? then r.word.value else ""
  }

  function Quote(r: Reader, quoting: Quoting): Reader
    requires r.Reader?
  {
    Reader(quoting, Some(Begun(r)), r.words)
  }

  function Take(r: Reader, text: string, quoting: Quoting): Reader
    requires r.Reader?
  {
    Reader(quoting, Some(Begun(r) + text), r.words)
  }

  function Delimit(r: Reader): seq<string>
    requires r.Reader?
  {
    r.words + if r.word.Some? then [r.word.value] else []
  }

  function Read(r: Reader, c: char): Reader {
    if r.Refused? || c == NUL then Refused
    else
      match r.quoting
      case Unquoted =>
        if c == ' ' || c == TAB then Reader(Unquoted, None, Delimit(r))
        else if c == '\'' then Quote(r, Single)
        else if c == '"' then Quote(r, Double)
        else if c == '\\' then r.(quoting := Escaped)
        else if IsSpecial(c) then Refused
        else Take(r, [c], Unquoted)
      case Escaped =>
        if c == NEWLINE then r.(quoting := Unquoted) else Take(r, [c], Unquoted)
      case Single =>
        if c == '\'' then r.(quoting := Unquoted) else Take(r, [c], Single)
      case Double =>
        if c == '"' then r.(quoting := Unquoted)
        else if c == '\\' then r.(quoting := DoubleEscaped)
        else if c == '$' || c == '`' then Refused
        else Take(r, [c], Double)
      case DoubleEscaped =>
        if c == NEWLINE then r.(quoting := Double)
        else Take(r, if c in {'$', '`', '"', '\\'} then [c] else ['\\', c], Double)
  }

  function ReadAll(r: Reader, text: string): Reader
    decreases |text|
  {
    if text == "" then r else ReadAll(Read(r, text[0]), text[1..])
  }

  /** The words of a command line made of plain and quoted words, with the quotes removed. */
  function Words(text: string): Option<seq<string>> {
    var r := ReadAll(Reader(Unquoted, None, []), text);
    if r.Reader? && r.quoting == Unquoted then Some(Delimit(r)) else None
  }

  lemma {:induction false} ReadConcat(r: Reader, a: string, b: string)
    ensures ReadAll(r, a + b) == ReadAll(ReadAll(r, a), b)
    decreases |a|
  {
    if a == "" {
      assert a + b == b;
    } else {
      assert (a + b)[0] == a[0] && (a + b)[1..] == a[1..] + b;
      ReadConcat(Read(r, a[0]), a[1..], b);
    }
  }

  lemma {:induction false} RefusedForGood(text: string)
    ensures ReadAll(Refused, text) == Refused
  {
    if text == "" {
    } else {
      RefusedForGood(text[1..]);
    }
  }

  lemma {:induction false} NulRefused(r: Reader, text: string)
    requires NUL in text
    ensures ReadAll(r, text) == Refused
    decreases |text|
  {
    if text[0] == NUL {
      RefusedForGood(text[1..]);
    } else {
      NulRefused(Read(r, text[0]), text[1..]);
    }
  }

  // ----- reading a quoted value -----

  /** Inside single quotes, the replacement adds a single quote to the word and stays inside. */
  ghost predicate AddsQuote(replacement: string) {
    forall word, words :: ReadAll(Reader(Single, Some(word), words), replacement) == Reader(Single, Some(word + "'"), words)
  }

  lemma BackslashAddsQuote()
    ensures AddsQuote("'\\''")
  {
    forall word, words
      ensures ReadAll(Reader(Single, Some(word), words), "'\\''") == Reader(Single, Some(word + "'"), words)
    {
      FourChars(Reader(Single, Some(word), words), "'\\''");
    }
  }

  lemma DoubleQuotesAddQuote()
    ensures AddsQuote("'\"'\"'")
  {
    forall word, words
      ensures ReadAll(Reader(Single, Some(word), words), "'\"'\"'") == Reader(Single, Some(word + "'"), words)
    {
      var r := Reader(Single, Some(word), words);
      assert "'\"'\"'"[1..] == "\"'\"'";
      FourChars(Read(r, '\''), "\"'\"'");
    }
  }

  lemma FourChars(r: Reader, text: string)
    requires |text| == 4
    ensures ReadAll(r, text) == Read(Read(Read(Read(r, text[0]), text[1]), text[2]), text[3])
  {
    assert text == [text[0]] + ([text[1]] + ([text[2]] + [text[3]]));
    ReadConcat(r, [text[0]], [text[1]] + ([text[2]] + [text[3]]));
    var r1 := Read(r, text[0]);
    ReadConcat(r1, [text[1]], [text[2]] + [text[3]]);
    ReadConcat(Read(r1, text[1]), [text[2]], [text[3]]);
    forall q, c ensures ReadAll(q, [c]) == Read(q, c) {
      OneChar(q, [c]);
    }
  }

  lemma {:induction false} BodyReads(value: string, replacement: string, word: string, words: seq<string>)
    requires AddsQuote(replacement) && NUL !in value
    ensures ReadAll(Reader(Single, Some(word), words), ReplaceQuotes(value, replacement)) == Reader(Single, Some(word + value), words)
  {
    if value == "" {
      assert word + value == word;
    } else {
      var first := if value[0] == '\'' then replacement else [value[0]];
      var r := Reader(Single, Some(word), words);
      ReadConcat(r, first, ReplaceQuotes(value[1..], replacement));
      assert [value[0]][1..] == "";
      assert ReadAll(r, first) == Reader(Single, Some(word + [value[0]]), words);
      BodyReads(value[1..], replacement, word + [value[0]], words);
      assert word + [value[0]] + value[1..] == word + value;
    }
  }

  /** Read where a word may already have begun, single-quoted text adds exactly the value to it. */
  lemma QuotedReads(value: string, replacement: string, before: Option<string>, words: seq<string>)
    requires AddsQuote(replacement) && NUL !in value
    ensures var r := Reader(Unquoted, before, words);
            ReadAll(r, "'" + ReplaceQuotes(value, replacement) + "'") == Reader(Unquoted, Some(Begun(r) + value), words)
  {
    var r := Reader(Unquoted, before, words);
    var body := ReplaceQuotes(value, replacement);
    ReadConcat(r, "'" + body, "'");
    ReadConcat(r, "'", body);
    OneChar(r, "'");
    BodyReads(value, replacement, Begun(r), words);
    OneChar(Reader(Single, Some(Begun(r) + value), words), "'");
  }

  lemma OneChar(r: Reader, text: string)
    requires |text| == 1
    ensures ReadAll(r, text) == Read(r, text[0])
  {
  }

  // ----- reading a command line -----

  /** `text` is read as one whole word, `value`, wherever a word may begin. */
  ghost predicate ReadsAs(text: string, value: string) {
    forall words :: ReadAll(Reader(Unquoted, None, words), text) == Reader(Unquoted, Some(value), words)
  }

  ghost predicate AllReadAs(texts: seq<string>, values: seq<string>) {
    |texts| == |values| && forall i | 0 <= i < |texts| :: ReadsAs(texts[i], values[i])
  }

  lemma {:induction false} JoinReads(texts: seq<string>, values: seq<string>, words: seq<string>)
    requires AllReadAs(texts, values)
    ensures var r := ReadAll(Reader(Unquoted, None, words), Join(texts, " "));
            r.Reader? && r.quoting == Unquoted && Delimit(r) == words + values
  {
    var start := Reader(Unquoted, None, words);
    if |texts| == 1 {
      assert ReadsAs(texts[0], values[0]);
      assert values == [values[0]];
    } else if |texts| > 1 {
      assert ReadsAs(texts[0], values[0]);
      var rest := Join(texts[1..], " ");
      ReadConcat(start, texts[0] + " ", rest);
      ReadConcat(start, texts[0], " ");
      OneChar(Reader(Unquoted, Some(values[0]), words), " ");
      JoinReads(texts[1..], values[1..], words + [values[0]]);
      assert words + [values[0]] + values[1..] == words + values;
    }
  }

  lemma ShellQuoteReads(value: string)
    requires NUL !in value
    ensures ReadsAs(ShellQuote(value), value)
  {
    BackslashAddsQuote();
    forall words ensures ReadAll(Reader(Unquoted, None, words), ShellQuote(value)) == Reader(Unquoted, Some(value), words) {
      QuotedReads(value, "'\\''", None, words);
      assert "" + value == value;
    }
  }

  /** Quoted with shellEscapeForSh inside single quotes, a value is read back exactly when it has no NUL. */
  lemma ShellEscapeReads(value: string)
    ensures ReadsAs("'" + ShellEscapeForSh(value) + "'", value) <==> NUL !in value
    ensures Words("'" + ShellEscapeForSh(value) + "'") == if NUL !in value then Some([value]) else None
  {
    var text := "'" + ShellEscapeForSh(value) + "'";
    var start := Reader(Unquoted, None, []);
    if NUL in value {
      NulKept(value, "'\"'\"'");
      NulRefused(start, text);
      NulRefused(Reader(Unquoted, None, []), text);
    } else {
      DoubleQuotesAddQuote();
      forall words ensures ReadAll(Reader(Unquoted, None, words), text) == Reader(Unquoted, Some(value), words) {
        QuotedReads(value, "'\"'\"'", None, words);
        assert "" + value == value;
      }
      assert ReadAll(start, text) == Reader(Unquoted, Some(value), []);
      assert Delimit(Reader(Unquoted, Some(value), [])) == [value];
    }
  }

  lemma {:induction false} NulKept(value: string, replacement: string)
    requires NUL in value
    ensures NUL in ReplaceQuotes(value, replacement)
  {
    if value[0] != NUL {
      NulKept(value[1..], replacement);
    }
  }

  ghost predicate NulFree(values: seq<string>) {
    forall i | 0 <= i < |values| :: NUL !in values[i]
  }

  lemma {:induction false} QuoteAllReads(values: seq<string>)
    requires NulFree(values)
    ensures AllReadAs(QuoteAll(values), values)
  {
    if values == [] {
    } else {
      ShellQuoteReads(values[0]);
      QuoteAllReads(values[1..]);
    }
  }

  lemma {:induction false} JoinKeeps(texts: seq<string>, i: nat, c: char)
    requires i < |texts| && c in texts[i]
    ensures c in Join(texts, " ")
  {
    if |texts| > 1 && i > 0 {
      JoinKeeps(texts[1..], i - 1, c);
    }
  }

  lemma {:induction false} QuoteAllAt(values: seq<string>)
    ensures |QuoteAll(values)| == |values| && forall i | 0 <= i < |values| :: QuoteAll(values)[i] == ShellQuote(values[i])
  {
    if values == [] {
    } else {
      QuoteAllAt(values[1..]);
    }
  }

  /** The quoted words, joined with spaces, are read back as exactly the values; with a NUL anywhere, nothing is read. */
  lemma QuotedWordsReadBack(values: seq<string>)
    ensures Words(Join(QuoteAll(values), " ")) == if NulFree(values) then Some(values) else None
  {
    if NulFree(values) {
      QuoteAllReads(values);
      JoinReads(QuoteAll(values), values, []);
      assert [] + values == values;
    } else {
      QuoteAllAt(values);
      var i :| 0 <= i < |values| && NUL in values[i];
      NulKept(values[i], "'\\''");
      JoinKeeps(QuoteAll(values), i, NUL);
      NulRefused(Reader(Unquoted, None, []), Join(QuoteAll(values), " "));
    }
  }

  // ----- the command of the release check -----

  ghost predicate IsPlain(text: string) {
    forall i | 0 <= i < |text| :: text[i] !in {' ', TAB, '\'', '"', '\\', NUL} && !IsSpecial(text[i])
  }

  lemma {:induction false} PlainReads(text: string, before: Option<string>, words: seq<string>)
    requires IsPlain(text) && text != ""
    ensures var r := Reader(Unquoted, before, words); ReadAll(r, text) == Reader(Unquoted, Some(Begun(r) + text), words)
  {
    var r := Reader(Unquoted, before, words);
    if |text| == 1 {
      assert text == [text[0]];
    } else {
      PlainReads(text[1..], Some(Begun(r) + [text[0]]), words);
      assert Begun(r) + [text[0]] + text[1..] == Begun(r) + text;
    }
  }

  lemma PlainReadsAs(text: string)
    requires IsPlain(text) && text != ""
    ensures ReadsAs(text, text)
  {
    forall words ensures ReadAll(Reader(Unquoted, None, words), text) == Reader(Unquoted, Some(text), words) {
      PlainReads(text, None, words);
      assert "" + text == text;
    }
  }

  lemma LiteralsRead()
    ensures ReadsAs("exec", "exec") && ReadsAs("--foreground", "--foreground") && ReadsAs("150m", "150m")
  {
    PlainReadsAs("exec");
    PlainReadsAs("--foreground");
    PlainReadsAs("150m");
  }

  lemma FourReadAs(a: string, b: string, c: string, d: string, value: string)
    requires ReadsAs(a, a) && ReadsAs(b, value) && ReadsAs(c, c) && ReadsAs(d, d)
    ensures AllReadAs([a, b, c, d], [a, value, c, d])
  {
  }

  lemma AllReadAsConcat(a: seq<string>, b: seq<string>, x: seq<string>, y: seq<string>)
    requires AllReadAs(a, x) && AllReadAs(b, y)
    ensures AllReadAs(a + b, x + y)
  {
  }

  /** What bash is told to execute is the timeout command, its two options and the forwarded words, whatever they hold. */
  lemma ParallelsCommandReads(timeoutBin: string, forwarded: seq<string>)
    ensures Words(ParallelsCommand(timeoutBin, forwarded))
         == if NUL !in timeoutBin && NulFree(forwarded) then Some(["exec", timeoutBin, "--foreground", "150m"] + forwarded) else None
  {
    var head := ["exec", ShellQuote(timeoutBin), "--foreground", "150m"];
    if NUL !in timeoutBin && NulFree(forwarded) {
      var values := ["exec", timeoutBin, "--foreground", "150m"];
      LiteralsRead();
      ShellQuoteReads(timeoutBin);
      FourReadAs("exec", ShellQuote(timeoutBin), "--foreground", "150m", timeoutBin);
      QuoteAllReads(forwarded);
      AllReadAsConcat(head, QuoteAll(forwarded), values, forwarded);
      JoinReads(head + QuoteAll(forwarded), values + forwarded, []);
      assert [] + (values + forwarded) == values + forwarded;
    } else {
      var i := NulAt(timeoutBin, forwarded);
      JoinKeeps(head + QuoteAll(forwarded), i, NUL);
      NulRefused(Reader(Unquoted, None, []), ParallelsCommand(timeoutBin, forwarded));
    }
  }

  lemma NulAt(timeoutBin: string, forwarded: seq<string>) returns (i: nat)
    requires !(NUL !in timeoutBin && NulFree(forwarded))
    ensures var texts := ["exec", ShellQuote(timeoutBin), "--foreground", "150m"] + QuoteAll(forwarded);
            i < |texts| && NUL in texts[i]
  {
    QuoteAllAt(forwarded);
    if NUL in timeoutBin {
      NulKept(timeoutBin, "'\\''");
      i := 1;
    } else {
      var k :| 0 <= k < |forwarded| && NUL in forwarded[k];
      NulKept(forwarded[k], "'\\''");
      i := k + 4;
    }
  }
}
