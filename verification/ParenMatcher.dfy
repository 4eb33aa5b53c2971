/** The quote-aware scanner of the temp-path guardrail and its parenthesis matcher,
    proved against the grammar of the text it is meant to skip. */
module ParenMatcher {
  import opened Text

  predicate IsQuote(c: char) {
    c == '\'' || c == '"' || c == '`'
  }

  // ----- the grammar -----

  datatype QuotedChar = Raw(c: char) | Escaped(c: char)

  /** Plain characters, complete quoted strings, and parenthesised text. */
  datatype Item = Plain(c: char) | Quoted(quote: char, body: seq<QuotedChar>) | Group(items: seq<Item>)

  predicate WellFormedBody(quote: char, body: seq<QuotedChar>) {
    forall q | q in body :: q.Raw? ==> q.c != '\\' && q.c != quote
  }

  predicate WellFormed(items: seq<Item>) {
    forall item | item in items ::
      match item
      case Plain(c) => !IsQuote(c) && c != '(' && c != ')'
      case Quoted(quote, body) => IsQuote(quote) && WellFormedBody(quote, body)
      case Group(inner) => WellFormed(inner)
  }

  function ShowBody(body: seq<QuotedChar>): string {
    if body == [] then ""
    else ShowBody(body[..|body| - 1])
         + match body[|body| - 1] case Raw(c) => [c] case Escaped(c) => ['\\', c]
  }

  function ShowItem(item: Item): string {
    match item
    case Plain(c) => [c]
    case Quoted(quote, body) => [quote] + ShowBody(body) + [quote]
    case Group(inner) => "(" + Show(inner) + ")"
  }

  function Show(items: seq<Item>): string {
    if items == [] then "" else Show(items[..|items| - 1]) + ShowItem(items[|items| - 1])
  }

  // ----- the scanner -----

  datatype Scan = Scan(quote: Option<char>, escaped: bool, depth: nat)

  const START := Scan(None, false, 1)

  /** The quote state after one character of a quoted section. */
  function InQuote(quote: char, escaped: bool, c: char): (Option<char>, bool) {
    if escaped then (Some(quote), false)
    else if c == '\\' then (Some(quote), true)
    else if c == quote then (None, false)
    else (Some(quote), false)
  }

  /** One character; None when it closes the outermost parenthesis. */
  function Step(s: Scan, c: char): Option<Scan> {
    if s.quote.Some? then
      var (quote, escaped) := InQuote(s.quote.value, s.escaped, c);
      Some(Scan(quote, escaped, s.depth))
    else if IsQuote(c) then Some(s.(quote := Some(c)))
    else if c == '(' then Some(s.(depth := s.depth + 1))
    else if c == ')' then if s.depth <= 1 then None else Some(s.(depth := s.depth - 1))
    else Some(s)
  }

  function Run(s: Scan, text: string): Option<Scan> {
    if text == "" then Some(s)
    else match Run(s, text[..|text| - 1])
      case None => None
      case Some(s') => Step(s', text[|text| - 1])
  }

  lemma {:induction false} RunConcat(s: Scan, a: string, b: string)
    ensures Run(s, a + b) == match Run(s, a) case None => None case Some(s') => Run(s', b)
  {
    if b == "" {
      assert a + b == a;
    } else {
      assert (a + b)[..|a + b| - 1] == a + b[..|b| - 1];
      RunConcat(s, a, b[..|b| - 1]);
    }
  }

  lemma {:induction false} RunBody(s: Scan, body: seq<QuotedChar>)
    requires s.quote.Some? && !s.escaped && WellFormedBody(s.quote.value, body)
    ensures Run(s, ShowBody(body)) == Some(s)
  {
    if body == [] {
    } else {
      var init, last := body[..|body| - 1], body[|body| - 1];
      assert last in body && forall q | q in init :: q in body;
      RunBody(s, init);
      match last
      case Raw(c) =>
        RunOne(s, c);
        RunConcat(s, ShowBody(init), [c]);
      case Escaped(c) =>
        assert ['\\', c] == ['\\'] + [c];
        RunOne(s, '\\');
        RunOne(s.(escaped := true), c);
        RunConcat(s, ['\\'], [c]);
        RunConcat(s, ShowBody(init), ['\\', c]);
    }
  }

  /** Text of the grammar leaves the scanner as it found it. */
  lemma {:induction false} RunText(s: Scan, items: seq<Item>)
    requires WellFormed(items) && s.quote.None? && !s.escaped && s.depth > 0
    ensures Run(s, Show(items)) == Some(s)
    decreases items
  {
    if items == [] {
    } else {
      var init, last := items[..|items| - 1], items[|items| - 1];
      assert last in items && forall item | item in init :: item in items;
      RunText(s, init);
      RunConcat(s, Show(init), ShowItem(last));
      RunItem(s, last);
    }
  }

  lemma RunItem(s: Scan, item: Item)
    requires WellFormed([item]) && s.quote.None? && !s.escaped && s.depth > 0
    ensures Run(s, ShowItem(item)) == Some(s)
    decreases item
  {
    assert item in [item];
    match item
    case Plain(c) => RunOne(s, c);
    case Quoted(quote, body) => RunQuoted(s, quote, body);
    case Group(inner) =>
      var inside := s.(depth := s.depth + 1);
      RunText(inside, inner);
      RunGroup(s, Show(inner));
  }

  lemma RunGroup(s: Scan, text: string)
    requires s.quote.None? && s.depth > 0 && Run(s.(depth := s.depth + 1), text) == Some(s.(depth := s.depth + 1))
    ensures Run(s, "(" + text + ")") == Some(s)
  {
    RunOne(s, '(');
    RunOne(s.(depth := s.depth + 1), ')');
    RunConcat(s, "(", text);
    RunConcat(s, "(" + text, ")");
  }

  lemma RunQuoted(s: Scan, quote: char, body: seq<QuotedChar>)
    requires IsQuote(quote) && WellFormedBody(quote, body) && s.quote.None? && !s.escaped
    ensures Run(s, [quote] + ShowBody(body) + [quote]) == Some(s)
  {
    var inside := s.(quote := Some(quote));
    RunBody(inside, body);
    RunOne(s, quote);
    RunOne(inside, quote);
    RunConcat(s, [quote], ShowBody(body));
    RunConcat(s, [quote] + ShowBody(body), [quote]);
  }

  lemma RunOne(s: Scan, c: char)
    ensures Run(s, [c]) == Step(s, c)
  {
    assert [c][..0] == "";
  }

  // ----- open prefixes: what the scanner has read so far -----

  /** The text inside each open parenthesis, outermost first. */
  function ShowOpen(stack: seq<seq<Item>>): string {
    if stack == [] then ""
    else if |stack| == 1 then Show(stack[0])
    else ShowOpen(stack[..|stack| - 1]) + "(" + Show(stack[|stack| - 1])
  }

  function ShowQuote(s: Scan, body: seq<QuotedChar>): string {
    if s.quote.None? then "" else [s.quote.value] + ShowBody(body) + if s.escaped then "\\" else ""
  }

  ghost predicate Reads(text: string, s: Scan, stack: seq<seq<Item>>, body: seq<QuotedChar>) {
    && text == ShowOpen(stack) + ShowQuote(s, body)
    && |stack| == s.depth > 0
    && (forall items | items in stack :: WellFormed(items))
    && (s.escaped ==> s.quote.Some?)
    && (s.quote.Some? ==> IsQuote(s.quote.value) && WellFormedBody(s.quote.value, body))
    && (s.quote.None? ==> body == [])
  }

  function AddItem(stack: seq<seq<Item>>, item: Item): seq<seq<Item>>
    requires stack != []
  {
    stack[..|stack| - 1] + [stack[|stack| - 1] + [item]]
  }

  lemma AddItemShows(stack: seq<seq<Item>>, item: Item)
    requires stack != [] && (forall items | items in stack :: WellFormed(items)) && WellFormed([item])
    ensures ShowOpen(AddItem(stack, item)) == ShowOpen(stack) + ShowItem(item)
    ensures forall items | items in AddItem(stack, item) :: WellFormed(items)
  {
    var top := stack[|stack| - 1];
    assert (top + [item])[..|top|] == top;
    var after := AddItem(stack, item);
    assert after[..|after| - 1] == stack[..|stack| - 1];
    assert ShowOpen(after) == ShowOpen(stack) + ShowItem(item);
    AddItemWellFormed(stack, item);
  }

  lemma AddItemWellFormed(stack: seq<seq<Item>>, item: Item)
    requires stack != [] && (forall items | items in stack :: WellFormed(items)) && WellFormed([item])
    ensures forall items | items in AddItem(stack, item) :: WellFormed(items)
  {
    var init, top := stack[..|stack| - 1], stack[|stack| - 1];
    assert top in stack && item in [item] && forall items | items in init :: items in stack;
    assert WellFormed(top + [item]);
  }

  /** How one character extends what was read; the parse grows with it. */
  lemma Extend(text: string, s: Scan, stack: seq<seq<Item>>, body: seq<QuotedChar>, c: char) returns (stack': seq<seq<Item>>, body': seq<QuotedChar>)
    requires Reads(text, s, stack, body) && Step(s, c).Some?
    ensures Reads(text + [c], Step(s, c).value, stack', body')
  {
    stack', body' := stack, body;
    if s.quote.Some? {
      stack', body' := ExtendInQuote(text, s, stack, body, c);
    } else if IsQuote(c) {
    } else if c == '(' {
      stack' := stack + [[]];
      assert stack'[..|stack|] == stack;
    } else if c == ')' {
      stack' := CloseGroup(text, s, stack);
    } else {
      SingleItem(Plain(c));
      AddItemShows(stack, Plain(c));
      stack' := AddItem(stack, Plain(c));
    }
  }

  lemma SingleItem(item: Item)
    ensures forall i | i in [item] :: i == item
  {
  }

  lemma CloseGroup(text: string, s: Scan, stack: seq<seq<Item>>) returns (stack': seq<seq<Item>>)
    requires Reads(text, s, stack, []) && s.quote.None? && s.depth > 1
    ensures Reads(text + [')'], s.(depth := s.depth - 1), stack', [])
  {
    var inner := stack[|stack| - 1];
    var outer := stack[..|stack| - 1];
    assert inner in stack && forall items | items in outer :: items in stack;
    SingleItem(Group(inner));
    AddItemShows(outer, Group(inner));
    stack' := AddItem(outer, Group(inner));
  }

  lemma ExtendInQuote(text: string, s: Scan, stack: seq<seq<Item>>, body: seq<QuotedChar>, c: char)
    returns (stack': seq<seq<Item>>, body': seq<QuotedChar>)
    requires Reads(text, s, stack, body) && s.quote.Some?
    ensures Reads(text + [c], Step(s, c).value, stack', body')
  {
    stack', body' := stack, body;
    ExtendQuote(text, s, stack, body, c);
    if !s.escaped && c == s.quote.value {
      SingleItem(Quoted(c, body));
      AddItemShows(stack, Quoted(c, body));
      stack', body' := AddItem(stack, Quoted(c, body)), [];
    } else if s.escaped || c != '\\' {
      body' := body + [if s.escaped then Escaped(c) else Raw(c)];
    }
  }

  /** Whatever the scanner has read without stopping is an open prefix of the grammar. */
  lemma {:induction false} RunReads(text: string, s: Scan) returns (stack: seq<seq<Item>>, body: seq<QuotedChar>)
    requires Run(START, text) == Some(s)
    ensures Reads(text, s, stack, body)
  {
    if text == "" {
      stack, body := [[]], [];
    } else {
      var init := text[..|text| - 1];
      var before := Run(START, init).value;
      stack, body := RunReads(init, before);
      stack, body := Extend(init, before, stack, body, text[|text| - 1]);
      assert init + [text[|text| - 1]] == text;
    }
  }

  lemma ExtendQuote(text: string, s: Scan, stack: seq<seq<Item>>, body: seq<QuotedChar>, c: char)
    requires Reads(text, s, stack, body) && s.quote.Some?
    ensures var longer := body + [if s.escaped then Escaped(c) else Raw(c)];
            && ShowBody(longer) == ShowBody(body) + (if s.escaped then "\\" else "") + [c]
            && (s.escaped || (c != '\\' && c != s.quote.value) ==> WellFormedBody(s.quote.value, longer))
  {
    var longer := body + [if s.escaped then Escaped(c) else Raw(c)];
    assert longer[..|body|] == body;
  }

  // ----- the implementation -----

  class QuoteScanState {
    var quote: Option<char>
    var escaped: bool

    constructor ()
      ensures quote == None && !escaped
    {
      quote, escaped := None, false;
    }

    /** True if the character belongs to an open quoted section. */
    method ConsumeQuotedChar(c: char) returns (consumed: bool)
      modifies this
      ensures consumed <==> old(quote).Some?
      ensures consumed ==> (quote, escaped) == InQuote(old(quote).value, old(escaped), c)
      ensures !consumed ==> quote == old(quote) && escaped == old(escaped)
    {
      if quote.None? {
        return false;
      }
      if escaped {
        escaped := false;
        return true;
      }
      if c == '\\' {
        escaped := true;
        return true;
      }
      if c == quote.value {
        quote := None;
      }
      return true;
    }

    method BeginQuotedSection(c: char) returns (begun: bool)
      modifies this`quote
      ensures begun <==> c == '\'' || c == '"' || c == '`'
      ensures quote == if begun then Some(c) else old(quote)
    {
      if c != '\'' && c != '"' && c != '`' {
        return false;
      }
      quote := Some(c);
      return true;
    }
  }

  /** The text from `from` up to `i` is in the grammar and a closing parenthesis follows it. */
  ghost predicate Closes(source: string, from: int, i: int) {
    && 0 <= from <= i < |source| && source[i] == ')'
    && exists items :: WellFormed(items) && source[from..i] == Show(items)
  }

  ghost predicate Matches(source: string, openIndex: nat, i: int) {
    Closes(source, openIndex + 1, i)
  }

  lemma ClosesRun(source: string, from: nat, i: int, k: int)
    requires Closes(source, from, i) && from <= k <= i
    ensures Run(START, source[from..k]).Some?
    ensures Run(START, source[from..i]) == Some(START)
  {
    var items :| WellFormed(items) && source[from..i] == Show(items);
    RunText(START, items);
    assert source[from..i] == source[from..k] + source[k..i];
    RunConcat(START, source[from..k], source[k..i]);
  }

  /** One turn of the scanning loop; depth 0 means the outermost parenthesis is closed. */
  method ScanChar(state: QuoteScanState, c: char, depth: nat) returns (depth': nat)
    requires depth > 0
    modifies state
    ensures Step(Scan(old(state.quote), old(state.escaped), depth), c)
            == if depth' == 0 then None else Some(Scan(state.quote, state.escaped, depth'))
  {
    depth' := depth;
    var consumed := state.ConsumeQuotedChar(c);
    if consumed {
      return;
    }
    var begun := state.BeginQuotedSection(c);
    if begun {
      return;
    }
    if c == '(' {
      depth' := depth + 1;
    } else if c == ')' {
      depth' := depth - 1;
    }
  }

  /** The index of the parenthesis that closes the one at `openIndex`, or -1. */
  method FindMatchingParen(source: string, openIndex: nat) returns (index: int)
    ensures index >= 0 ==> Matches(source, openIndex, index)
    ensures forall i :: Matches(source, openIndex, i) ==> index == i
    ensures index == -1 || index >= 0
  {
    var depth := 1;
    var state := new QuoteScanState();
    if openIndex + 1 > |source| {
      return -1;
    }
    ghost var from := openIndex + 1;
    assert source[from..from] == "";
    var i := openIndex + 1;
    while i < |source|
      invariant from <= i <= |source| && depth > 0
      invariant Run(START, source[from..i]) == Some(Scan(state.quote, state.escaped, depth))
    {
      RunStep(source, from, i);
      StopsHere(source, openIndex, i, Scan(state.quote, state.escaped, depth));
      depth := ScanChar(state, source[i], depth);
      if depth == 0 {
        return i;
      }
      i := i + 1;
    }
    NoMatch(source, openIndex);
    return -1;
  }

  lemma NoMatch(source: string, openIndex: nat)
    requires openIndex < |source| && Run(START, source[openIndex + 1..|source|]).Some?
    ensures forall k :: !Matches(source, openIndex, k)
  {
    forall k ensures !Matches(source, openIndex, k) {
      if Closes(source, openIndex + 1, k) {
        ClosesStops(source, openIndex + 1, k, |source|);
      }
    }
  }

  /** Where the scanner stops there is a match, and nowhere else. */
  lemma StopsHere(source: string, openIndex: nat, i: nat, s: Scan)
    requires openIndex < i < |source| && Run(START, source[openIndex + 1..i]) == Some(s)
    ensures Step(s, source[i]).None? ==> Matches(source, openIndex, i) && forall k :: Matches(source, openIndex, k) ==> k == i
  {
    if Step(s, source[i]).None? {
      FoundHere(source, openIndex + 1, i, s);
    }
  }

  lemma RunStep(source: string, from: nat, k: nat)
    requires from <= k < |source|
    ensures Run(START, source[from..k + 1]) == match Run(START, source[from..k]) case None => None case Some(s) => Step(s, source[k])
  {
    assert source[from..k + 1][..k - from] == source[from..k];
  }

  /** Once the parenthesis is closed the scanner never runs on. */
  lemma ClosesStops(source: string, from: nat, k: int, i: nat)
    requires Closes(source, from, k) && k < i <= |source|
    ensures Run(START, source[from..i]).None?
  {
    ClosesRun(source, from, k, k);
    RunStep(source, from, k);
    assert source[from..i] == source[from..k + 1] + source[k + 1..i];
    RunConcat(START, source[from..k + 1], source[k + 1..i]);
  }

  lemma TopLevel(text: string, s: Scan)
    requires Run(START, text) == Some(s) && s.quote.None? && s.depth == 1
    ensures exists items :: WellFormed(items) && text == Show(items)
  {
    var stack, body := RunReads(text, s);
    assert stack[0] in stack && text == Show(stack[0]);
  }

  lemma FoundHere(source: string, from: nat, i: nat, s: Scan)
    requires from <= i < |source| && Step(s, source[i]).None? && Run(START, source[from..i]) == Some(s)
    ensures Closes(source, from, i)
    ensures forall k :: Closes(source, from, k) ==> k == i
  {
    var text := source[from..i];
    var stack, body := RunReads(text, s);
    TopLevel(text, s);
    RunStep(source, from, i);
    forall k | Closes(source, from, k) ensures k == i {
      if k > i {
        ClosesRun(source, from, k, i + 1);
      } else if k < i {
        ClosesStops(source, from, k, i);
      }
    }
  }
}
