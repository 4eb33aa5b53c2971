/** The guardrail's splitter of an argument list at its top-level commas. */
module ArgumentSplitter {
  import opened Text
  import opened ParenMatcher

  /** Quote state and three depths that never go below zero. */
  datatype Nesting = Nesting(quote: Option<char>, escaped: bool, parens: nat, brackets: nat, braces: nat)

  const NEUTRAL := Nesting(None, false, 0, 0, 0)

  function Decrement(n: nat): nat {
    if n > 0 then n - 1 else 0
  }

  function Enter(s: Nesting, c: char): Nesting {
    if s.quote.Some? then
      var (quote, escaped) := InQuote(s.quote.value, s.escaped, c);
      s.(quote := quote, escaped := escaped)
    else if IsQuote(c) then s.(quote := Some(c))
    else if c == '(' then s.(parens := s.parens + 1)
    else if c == ')' then s.(parens := Decrement(s.parens))
    else if c == '[' then s.(brackets := s.brackets + 1)
    else if c == ']' then s.(brackets := Decrement(s.brackets))
    else if c == '{' then s.(braces := s.braces + 1)
    else if c == '}' then s.(braces := Decrement(s.braces))
    else s
  }

  predicate Separates(s: Nesting, c: char) {
    c == ',' && s.quote.None? && s.parens == 0 && s.brackets == 0 && s.braces == 0
  }

  function After(s: Nesting, text: string): Nesting
    decreases |text|
  {
    if text == "" then s else After(Enter(s, text[0]), text[1..])
  }

  /** No comma of the text separates when it is read from state `s`. */
  predicate Whole(s: Nesting, text: string)
    decreases |text|
  {
    text == "" || (!Separates(s, text[0]) && Whole(Enter(s, text[0]), text[1..]))
  }

  /** The pieces between separating commas, untrimmed; there is always one. */
  function Pieces(s: Nesting, text: string): (pieces: seq<string>)
    ensures pieces != []
    decreases |text|
  {
    if text == "" then [""]
    else if Separates(s, text[0]) then [""] + Pieces(s, text[1..])
    else
      var rest := Pieces(Enter(s, text[0]), text[1..]);
      [[text[0]] + rest[0]] + rest[1..]
  }

  function TrimAll(pieces: seq<string>): seq<string> {
    if pieces == [] then [] else TrimAll(pieces[..|pieces| - 1]) + [Trim(pieces[|pieces| - 1])]
  }

  /** Every piece trimmed; a blank last piece is dropped. */
  function Listed(pieces: seq<string>): seq<string>
    requires pieces != []
  {
    var last := pieces[|pieces| - 1];
    TrimAll(pieces[..|pieces| - 1]) + if Trim(last) != "" then [Trim(last)] else []
  }

  function Arguments(text: string): seq<string> {
    Listed(Pieces(NEUTRAL, text))
  }

  /** The bracket counters after one unquoted character. */
  method CountBrackets(c: char, parens: nat, brackets: nat, braces: nat) returns (parens': nat, brackets': nat, braces': nat)
    requires !IsQuote(c)
    ensures Nesting(None, false, parens', brackets', braces') == Enter(Nesting(None, false, parens, brackets, braces), c)
  {
    parens', brackets', braces' := parens, brackets, braces;
    if c == '(' {
      parens' := parens + 1;
    } else if c == ')' {
      if parens > 0 {
        parens' := parens - 1;
      }
    } else if c == '[' {
      brackets' := brackets + 1;
    } else if c == ']' {
      if brackets > 0 {
        brackets' := brackets - 1;
      }
    } else if c == '{' {
      braces' := braces + 1;
    } else if c == '}' {
      if braces > 0 {
        braces' := braces - 1;
      }
    }
  }

  /** One character that does not separate. */
  method EnterChar(state: QuoteScanState, c: char, parens: nat, brackets: nat, braces: nat)
    returns (parens': nat, brackets': nat, braces': nat)
    requires state.escaped ==> state.quote.Some?
    modifies state
    ensures Nesting(state.quote, state.escaped, parens', brackets', braces')
            == Enter(Nesting(old(state.quote), old(state.escaped), parens, brackets, braces), c)
    ensures state.escaped ==> state.quote.Some?
  {
    parens', brackets', braces' := parens, brackets, braces;
    var consumed := state.ConsumeQuotedChar(c);
    if consumed {
      return;
    }
    var begun := state.BeginQuotedSection(c);
    if begun {
      return;
    }
    parens', brackets', braces' := CountBrackets(c, parens, brackets, braces);
  }

  method SplitTopLevelArguments(source: string) returns (out: seq<string>)
    ensures out == Arguments(source)
  {
    out := [];
    var current := "";
    var parens, brackets, braces := 0, 0, 0;
    var state := new QuoteScanState();
    ghost var pieces: seq<string> := [];
    CutStart(source);
    for i := 0 to |source|
      invariant state.escaped ==> state.quote.Some?
      invariant parens >= 0 && brackets >= 0 && braces >= 0
      invariant out == TrimAll(pieces)
      invariant Cut(source, i, Nesting(state.quote, state.escaped, parens, brackets, braces), pieces, current)
    {
      var c := source[i];
      Advance(source, i, Nesting(state.quote, state.escaped, parens, brackets, braces), pieces, current);
      if state.quote.None? && c == ',' && parens == 0 && brackets == 0 && braces == 0 {
        assert (pieces + [current])[..|pieces|] == pieces;
        pieces := pieces + [current];
        out := out + [Trim(current)];
        current := "";
      } else {
        parens, brackets, braces := EnterChar(state, c, parens, brackets, braces);
        current := current + [c];
      }
    }
    CutEnd(source, Nesting(state.quote, state.escaped, parens, brackets, braces), pieces, current);
    assert (pieces + [current])[..|pieces|] == pieces;
    if Trim(current) != "" {
      out := out + [Trim(current)];
    }
  }

  /** The pieces of the source are the finished ones, the current one continued by the
      first piece still ahead, and the others ahead. */
  ghost predicate Cut(source: string, i: nat, s: Nesting, pieces: seq<string>, current: string) {
    i <= |source| && var ahead := Pieces(s, source[i..]);
    Pieces(NEUTRAL, source) == pieces + [current + ahead[0]] + ahead[1..]
  }

  lemma CutStart(source: string)
    ensures Cut(source, 0, NEUTRAL, [], "")
  {
    var all := Pieces(NEUTRAL, source);
    assert source[0..] == source && "" + all[0] == all[0];
    assert [] + [all[0]] + all[1..] == all;
  }

  lemma CutEnd(source: string, s: Nesting, pieces: seq<string>, current: string)
    requires Cut(source, |source|, s, pieces, current)
    ensures Pieces(NEUTRAL, source) == pieces + [current]
  {
    assert source[|source|..] == "" && Pieces(s, "") == [""];
    assert current + "" == current && [""][1..] == [];
    assert pieces + [current] + [] == pieces + [current];
  }

  lemma Advance(source: string, i: nat, s: Nesting, pieces: seq<string>, current: string)
    requires i < |source| && Cut(source, i, s, pieces, current)
    ensures if Separates(s, source[i]) then Cut(source, i + 1, s, pieces + [current], "")
            else Cut(source, i + 1, Enter(s, source[i]), pieces, current + [source[i]])
  {
    assert source[i..][0] == source[i] && source[i..][1..] == source[i + 1..];
    var ahead := Pieces(s, source[i..]);
    if Separates(s, source[i]) {
      var next := Pieces(s, source[i + 1..]);
      assert ahead[1..] == next == [next[0]] + next[1..];
      assert current + ahead[0] == current && "" + next[0] == next[0];
      assert pieces + [current] + next == pieces + [current] + [next[0]] + next[1..];
    } else {
      var next := Pieces(Enter(s, source[i]), source[i + 1..]);
      assert ahead[1..] == next[1..];
      assert current + ahead[0] == current + [source[i]] + next[0];
    }
  }

  // ----- splitting and joining -----

  /** On any input the untrimmed pieces rejoined with commas rebuild the source, and no
      piece but the last has a separating comma left in it or leaves the scanner nested. */
  lemma {:induction false} PiecesRebuild(s: Nesting, text: string)
    ensures Join(Pieces(s, text), ",") == text
    decreases |text|
  {
    if text == "" {
    } else {
      var next := if Separates(s, text[0]) then s else Enter(s, text[0]);
      var rest := Pieces(next, text[1..]);
      PiecesRebuild(next, text[1..]);
      if Separates(s, text[0]) {
        assert ([""] + rest)[1..] == rest;
      } else {
        assert ([[text[0]] + rest[0]] + rest[1..])[1..] == rest[1..];
      }
    }
  }

  lemma {:induction false} FirstPiece(s: Nesting, text: string)
    ensures var pieces := Pieces(s, text);
            && Whole(s, pieces[0])
            && (|pieces| > 1 ==>
                  && Separates(After(s, pieces[0]), ',') && |text| > |pieces[0]|
                  && pieces[1..] == Pieces(After(s, pieces[0]), text[|pieces[0]| + 1..]))
    decreases |text|
  {
    if text == "" {
    } else if !Separates(s, text[0]) {
      var rest := Pieces(Enter(s, text[0]), text[1..]);
      FirstPiece(Enter(s, text[0]), text[1..]);
      var first := [text[0]] + rest[0];
      assert first[1..] == rest[0];
      if |rest| > 1 {
        assert text[1..][|rest[0]| + 1..] == text[|first| + 1..];
      }
    }
  }

  /** A whole text followed by a separating comma is exactly the first piece. */
  lemma {:induction false} SplitOff(s: Nesting, piece: string, rest: string)
    requires Whole(s, piece) && Separates(After(s, piece), ',')
    ensures Pieces(s, piece + "," + rest) == [piece] + Pieces(After(s, piece), rest)
    decreases |piece|
  {
    var text := piece + "," + rest;
    if piece == "" {
      assert text[1..] == rest;
    } else {
      assert text[1..] == piece[1..] + "," + rest;
      SplitOff(Enter(s, piece[0]), piece[1..], rest);
      assert [piece[0]] + piece[1..] == piece;
    }
  }

  lemma {:induction false} WholeIsOnePiece(s: Nesting, text: string)
    requires Whole(s, text)
    ensures Pieces(s, text) == [text]
    decreases |text|
  {
    if text == "" {
    } else {
      WholeIsOnePiece(Enter(s, text[0]), text[1..]);
      assert [text[0]] + text[1..] == text;
    }
  }

  /** Pieces that can stand between commas: each whole, and all but the last leaving the
      scanner where it was. */
  ghost predicate Separable(pieces: seq<string>) {
    && pieces != []
    && (forall i | 0 <= i < |pieces| :: Whole(NEUTRAL, pieces[i]))
    && (forall i | 0 <= i < |pieces| - 1 :: After(NEUTRAL, pieces[i]) == NEUTRAL)
  }

  lemma TailSeparable(pieces: seq<string>)
    requires Separable(pieces) && |pieces| > 1
    ensures Separable(pieces[1..])
    ensures Whole(NEUTRAL, pieces[0]) && Separates(After(NEUTRAL, pieces[0]), ',')
  {
    assert forall i | 0 <= i < |pieces| - 1 :: pieces[1..][i] == pieces[i + 1];
  }

  lemma {:induction false} JoinSplits(pieces: seq<string>)
    requires Separable(pieces)
    ensures Pieces(NEUTRAL, Join(pieces, ",")) == pieces
  {
    if |pieces| == 1 {
      WholeIsOnePiece(NEUTRAL, pieces[0]);
    } else {
      TailSeparable(pieces);
      JoinSplits(pieces[1..]);
      SplitOff(NEUTRAL, pieces[0], Join(pieces[1..], ","));
    }
  }

  lemma {:induction false} EscapedOnlyInQuotes(s: Nesting, text: string)
    requires s.escaped ==> s.quote.Some?
    ensures After(s, text).escaped ==> After(s, text).quote.Some?
    decreases |text|
  {
    if text == "" {
    } else {
      EscapedOnlyInQuotes(Enter(s, text[0]), text[1..]);
    }
  }

  /** The pieces of any text are separable, so they are the only separable list whose
      comma-join is the text. */
  lemma {:induction false} PiecesSeparable(text: string)
    ensures Separable(Pieces(NEUTRAL, text))
    decreases |text|
  {
    var pieces := Pieces(NEUTRAL, text);
    FirstPiece(NEUTRAL, text);
    if |pieces| > 1 {
      EscapedOnlyInQuotes(NEUTRAL, pieces[0]);
      assert After(NEUTRAL, pieces[0]) == NEUTRAL;
      PiecesSeparable(text[|pieces[0]| + 1..]);
      assert forall i | 0 < i < |pieces| :: pieces[i] == pieces[1..][i - 1];
    }
  }

  lemma PiecesUnique(text: string, pieces: seq<string>)
    ensures Separable(pieces) && Join(pieces, ",") == text <==> pieces == Pieces(NEUTRAL, text)
  {
    PiecesSeparable(text);
    PiecesRebuild(NEUTRAL, text);
    if Separable(pieces) && Join(pieces, ",") == text {
      JoinSplits(pieces);
    }
  }

  // ----- the ", "-join of an argument list -----

  predicate ProperArgument(a: string) {
    a != "" && Trim(a) == a && Whole(NEUTRAL, a) && After(NEUTRAL, a) == NEUTRAL
  }

  function Spaced(args: seq<string>): seq<string> {
    if args == [] then [] else Spaced(args[..|args| - 1]) + [" " + args[|args| - 1]]
  }

  lemma {:induction false} SpacedAt(args: seq<string>)
    ensures |Spaced(args)| == |args| && forall i | 0 <= i < |args| :: Spaced(args)[i] == " " + args[i]
  {
    if args == [] {
    } else {
      SpacedAt(args[..|args| - 1]);
    }
  }

  lemma SpacedHead(args: seq<string>)
    requires args != []
    ensures Spaced(args) == [" " + args[0]] + Spaced(args[1..])
  {
    SpacedAt(args);
    SpacedAt(args[1..]);
  }

  lemma {:induction false} JoinSpaced(args: seq<string>)
    requires args != []
    ensures Join(args, ", ") == Join([args[0]] + Spaced(args[1..]), ",")
    decreases |args|
  {
    var rest := args[1..];
    if |args| == 1 {
      assert [args[0]] + Spaced(rest) == args;
    } else {
      JoinSpaced(rest);
      var spaced := Spaced(rest);
      SpacedAt(rest);
      SpacedHead(rest);
      JoinHead(" ", rest[0], Spaced(rest[1..]));
      assert ([args[0]] + spaced)[1..] == spaced;
      assert args[0] + ", " + Join(rest, ", ") == args[0] + "," + (" " + Join(rest, ", "));
    }
  }

  lemma JoinHead(prefix: string, head: string, tail: seq<string>)
    ensures Join([prefix + head] + tail, ",") == prefix + Join([head] + tail, ",")
  {
    assert ([prefix + head] + tail)[1..] == tail == ([head] + tail)[1..];
    if tail != [] {
      assert prefix + head + "," + Join(tail, ",") == prefix + (head + "," + Join(tail, ","));
    }
  }

  lemma SpaceIsNeutral(a: string)
    requires ProperArgument(a)
    ensures Whole(NEUTRAL, " " + a) && After(NEUTRAL, " " + a) == NEUTRAL && Trim(" " + a) == a
  {
    assert (" " + a)[1..] == a;
    TrimIdle(a);
  }

  lemma TrimIdle(a: string)
    requires Trim(a) == a
    ensures TrimStart(a) == a && Trim(" " + a) == a
  {
    TrimStartShortens(a);
    TrimEndShortens(TrimStart(a));
    assert (" " + a)[1..] == a;
  }

  lemma {:induction false} TrimStartShortens(a: string)
    ensures |TrimStart(a)| <= |a| && (|TrimStart(a)| == |a| ==> TrimStart(a) == a)
  {
    if a == "" {
    } else if IsSpace(a[0]) {
      TrimStartShortens(a[1..]);
    }
  }

  lemma {:induction false} TrimEndShortens(a: string)
    ensures |TrimEnd(a)| <= |a|
  {
    if a == "" {
    } else if IsSpace(a[|a| - 1]) {
      TrimEndShortens(a[..|a| - 1]);
    }
  }

  lemma {:induction false} TrimAllAt(pieces: seq<string>)
    ensures |TrimAll(pieces)| == |pieces| && forall i | 0 <= i < |pieces| :: TrimAll(pieces)[i] == Trim(pieces[i])
  {
    if pieces == [] {
    } else {
      TrimAllAt(pieces[..|pieces| - 1]);
    }
  }

  lemma ArgumentPieces(args: seq<string>)
    requires args != [] && forall i | 0 <= i < |args| :: ProperArgument(args[i])
    ensures var pieces := [args[0]] + Spaced(args[1..]);
            && Separable(pieces) && |pieces| == |args|
            && forall i | 0 <= i < |args| :: Trim(pieces[i]) == args[i]
  {
    var pieces := [args[0]] + Spaced(args[1..]);
    SpacedAt(args[1..]);
    forall i | 0 <= i < |pieces|
      ensures Whole(NEUTRAL, pieces[i]) && After(NEUTRAL, pieces[i]) == NEUTRAL && Trim(pieces[i]) == args[i]
    {
      if i > 0 {
        assert pieces[i] == " " + args[i];
        SpaceIsNeutral(args[i]);
      }
    }
  }

  /** Splitting undoes joining: a list of trimmed, non-empty, self-contained arguments joined
      with ", " is split into exactly that list. */
  lemma SplitUndoesJoin(args: seq<string>)
    requires args != [] && forall i | 0 <= i < |args| :: ProperArgument(args[i])
    ensures Arguments(Join(args, ", ")) == args
  {
    ArgumentPieces(args);
    JoinSpaced(args);
    var pieces := [args[0]] + Spaced(args[1..]);
    JoinSplits(pieces);
    ArgumentsFrom(Join(args, ", "), pieces, args);
  }

  lemma ArgumentsFrom(text: string, pieces: seq<string>, args: seq<string>)
    requires Pieces(NEUTRAL, text) == pieces && |pieces| == |args|
    requires forall i | 0 <= i < |args| :: Trim(pieces[i]) == args[i]
    requires args[|args| - 1] != ""
    ensures Arguments(text) == args
  {
    var n := |pieces| - 1;
    TrimAllAt(pieces[..n]);
    assert TrimAll(pieces[..n]) == args[..n];
  }

  // ----- the grammar of an argument -----

  /** Single characters, complete quoted strings, and text in brackets of one of the three kinds. */
  datatype Part = Single(c: char) | InQuotes(quote: char, body: seq<QuotedChar>) | InBrackets(open: char, parts: seq<Part>)

  predicate Opens(c: char) {
    c == '(' || c == '[' || c == '{'
  }

  function Closing(open: char): char {
    if open == '(' then ')' else if open == '[' then ']' else '}'
  }

  predicate Closes(c: char) {
    c == ')' || c == ']' || c == '}'
  }

  /** A comma stands for itself within brackets only, and a closing bracket that nothing opened outside of them only. */
  predicate WellFormedParts(parts: seq<Part>, nested: bool) {
    forall part | part in parts ::
      match part
      case Single(c) => !IsQuote(c) && !Opens(c) && (if nested then !Closes(c) else c != ',')
      case InQuotes(quote, body) => IsQuote(quote) && WellFormedBody(quote, body)
      case InBrackets(open, inner) => Opens(open) && WellFormedParts(inner, true)
  }

  function ShowPart(part: Part): string {
    match part
    case Single(c) => [c]
    case InQuotes(quote, body) => [quote] + ShowBody(body) + [quote]
    case InBrackets(open, inner) => [open] + ShowParts(inner) + [Closing(open)]
  }

  function ShowParts(parts: seq<Part>): string {
    if parts == [] then "" else ShowParts(parts[..|parts| - 1]) + ShowPart(parts[|parts| - 1])
  }

  lemma {:induction false} ReadConcat(s: Nesting, a: string, b: string)
    ensures After(s, a + b) == After(After(s, a), b)
    ensures Whole(s, a + b) <==> Whole(s, a) && Whole(After(s, a), b)
    decreases |a|
  {
    if a == "" {
      assert a + b == b;
    } else {
      assert (a + b)[1..] == a[1..] + b;
      ReadConcat(Enter(s, a[0]), a[1..], b);
    }
  }

  /** Reading the text separates nothing and ends in state `t`. */
  ghost predicate Reads(s: Nesting, text: string, t: Nesting) {
    Whole(s, text) && After(s, text) == t
  }

  lemma ReadsConcat(s: Nesting, a: string, t: Nesting, b: string, u: Nesting)
    requires Reads(s, a, t) && Reads(t, b, u)
    ensures Reads(s, a + b, u)
  {
    ReadConcat(s, a, b);
  }

  lemma ReadsOne(s: Nesting, c: char)
    requires !Separates(s, c)
    ensures Reads(s, [c], Enter(s, c))
  {
    assert [c][1..] == "";
  }

  lemma {:induction false} ReadsBody(s: Nesting, body: seq<QuotedChar>)
    requires s.quote.Some? && !s.escaped && WellFormedBody(s.quote.value, body)
    ensures Reads(s, ShowBody(body), s)
  {
    if body == [] {
    } else {
      var init, last := body[..|body| - 1], body[|body| - 1];
      assert last in body && forall q | q in init :: q in body;
      ReadsBody(s, init);
      match last
      case Raw(c) =>
        ReadsOne(s, c);
        ReadsConcat(s, ShowBody(init), s, [c], s);
      case Escaped(c) =>
        assert ['\\', c] == ['\\'] + [c];
        ReadsOne(s, '\\');
        ReadsOne(s.(escaped := true), c);
        ReadsConcat(s, ['\\'], s.(escaped := true), [c], s);
        ReadsConcat(s, ShowBody(init), s, ['\\', c], s);
    }
  }

  /** Inside some bracket, or outside of all. */
  predicate Inside(s: Nesting, nested: bool) {
    && s.quote.None? && !s.escaped
    && if nested then s.parens > 0 || s.brackets > 0 || s.braces > 0 else s == NEUTRAL
  }

  /** Text of the grammar separates nothing and leaves the scanner as it found it. */
  lemma {:induction false} ReadsParts(s: Nesting, parts: seq<Part>, nested: bool)
    requires WellFormedParts(parts, nested) && Inside(s, nested)
    ensures Reads(s, ShowParts(parts), s)
    decreases parts
  {
    if parts == [] {
    } else {
      var init, last := parts[..|parts| - 1], parts[|parts| - 1];
      assert last in parts && forall part | part in init :: part in parts;
      ReadsParts(s, init, nested);
      ReadsPart(s, last, nested);
      ReadsConcat(s, ShowParts(init), s, ShowPart(last), s);
    }
  }

  lemma {:induction false} ReadsPart(s: Nesting, part: Part, nested: bool)
    requires WellFormedParts([part], nested) && Inside(s, nested)
    ensures Reads(s, ShowPart(part), s)
    decreases part
  {
    assert part in [part];
    match part
    case Single(c) =>
      ReadsOne(s, c);
    case InQuotes(quote, body) =>
      var inside := s.(quote := Some(quote));
      ReadsOne(s, quote);
      ReadsBody(inside, body);
      ReadsOne(inside, quote);
      ReadsConcat(s, [quote], inside, ShowBody(body), inside);
      ReadsConcat(s, [quote] + ShowBody(body), inside, [quote], s);
    case InBrackets(open, inner) =>
      var inside := Enter(s, open);
      ReadsOne(s, open);
      ReadsParts(inside, inner, true);
      ReadsOne(inside, Closing(open));
      ReadsConcat(s, [open], inside, ShowParts(inner), inside);
      ReadsConcat(s, [open] + ShowParts(inner), inside, [Closing(open)], s);
  }

  ghost predicate InGrammar(text: string) {
    exists parts :: WellFormedParts(parts, false) && ShowParts(parts) == text
  }

  lemma ReadsArgument(text: string)
    requires InGrammar(text)
    ensures Reads(NEUTRAL, text, NEUTRAL)
  {
    var parts :| WellFormedParts(parts, false) && ShowParts(parts) == text;
    ReadsParts(NEUTRAL, parts, false);
  }

  /** Arguments of the grammar, joined with commas, are split at the commas between them and nowhere else. */
  lemma GrammarSplits(args: seq<string>)
    requires args != [] && forall i | 0 <= i < |args| :: InGrammar(args[i])
    ensures Pieces(NEUTRAL, Join(args, ",")) == args
  {
    forall i | 0 <= i < |args| ensures Whole(NEUTRAL, args[i]) && After(NEUTRAL, args[i]) == NEUTRAL {
      ReadsArgument(args[i]);
    }
    JoinSplits(args);
  }

  /** Behind a bracket that is never closed no comma separates. */
  lemma OpenBracketSwallows(before: seq<Part>, open: char, after: seq<Part>)
    requires WellFormedParts(before, false) && Opens(open) && WellFormedParts(after, true)
    ensures var text := ShowParts(before) + ([open] + ShowParts(after)); Pieces(NEUTRAL, text) == [text]
  {
    var inside := Enter(NEUTRAL, open);
    ReadsParts(NEUTRAL, before, false);
    ReadsOne(NEUTRAL, open);
    ReadsParts(inside, after, true);
    ReadsConcat(NEUTRAL, [open], inside, ShowParts(after), inside);
    ReadsConcat(NEUTRAL, ShowParts(before), NEUTRAL, [open] + ShowParts(after), inside);
    WholeIsOnePiece(NEUTRAL, ShowParts(before) + ([open] + ShowParts(after)));
  }

  /** Nor behind a quote that is never closed. */
  lemma OpenQuoteSwallows(before: seq<Part>, quote: char, body: seq<QuotedChar>)
    requires WellFormedParts(before, false) && IsQuote(quote) && WellFormedBody(quote, body)
    ensures var text := ShowParts(before) + ([quote] + ShowBody(body)); Pieces(NEUTRAL, text) == [text]
  {
    var inside := Enter(NEUTRAL, quote);
    ReadsParts(NEUTRAL, before, false);
    ReadsOne(NEUTRAL, quote);
    ReadsBody(inside, body);
    ReadsConcat(NEUTRAL, [quote], inside, ShowBody(body), inside);
    ReadsConcat(NEUTRAL, ShowParts(before), NEUTRAL, [quote] + ShowBody(body), inside);
    WholeIsOnePiece(NEUTRAL, ShowParts(before) + ([quote] + ShowBody(body)));
  }

  lemma ListedExactly(pieces: seq<string>)
    requires pieces != []
    ensures |Listed(pieces)| == if AllSpace(pieces[|pieces| - 1]) then |pieces| - 1 else |pieces|
    ensures forall i | 0 <= i < |Listed(pieces)| :: Trimmed(pieces[i], Listed(pieces)[i])
  {
    var init, last := pieces[..|pieces| - 1], pieces[|pieces| - 1];
    TrimAllAt(init);
    BlankExactly(last);
    forall i | 0 <= i < |init| ensures Trimmed(pieces[i], TrimAll(init)[i]) {
      assert init[i] == pieces[i];
      BlankExactly(init[i]);
    }
  }

  /** The arguments are the pieces trimmed, in order, without a last one that is blank. */
  lemma ArgumentsExactly(text: string)
    ensures var pieces, args := Pieces(NEUTRAL, text), Arguments(text);
            && |args| == (if AllSpace(pieces[|pieces| - 1]) then |pieces| - 1 else |pieces|)
            && forall i | 0 <= i < |args| :: Trimmed(pieces[i], args[i])
  {
    ListedExactly(Pieces(NEUTRAL, text));
  }
}
