/** The text JSON.stringify writes, and that it can be read back in one way only. */
module JsonText {
  import opened CanonicalJson
  import opened OrderedMap

  // ----- strings -----

  function HexDigit(n: nat): char
    requires n < 16
  {
    if n < 10 then '0' + n as char else 'a' + (n - 10) as char
  }

  function EscapeChar(c: char): string {
    if c == '"' then "\\\""
    else if c == '\\' then "\\\\"
    else if c == 8 as char then "\\b"
    else if c == 9 as char then "\\t"
    else if c == 10 as char then "\\n"
    else if c == 12 as char then "\\f"
    else if c == 13 as char then "\\r"
    else if c < ' ' then "\\u00" + [HexDigit(c as int / 16), HexDigit(c as int % 16)]
    else [c]
  }

  /** The escaped text of `s` and the quote that closes it. */
  function Escaped(s: string): string {
    if s == "" then "\"" else EscapeChar(s[0]) + Escaped(s[1..])
  }

  function Quoted(s: string): string {
    "\"" + Escaped(s)
  }

  lemma HexDigitInjective(m: nat, n: nat)
    requires m < 16 && n < 16
    ensures HexDigit(m) == HexDigit(n) <==> m == n
  {
  }

  /** No escape is the beginning of another one's text, and none starts with a quote. */
  lemma EscapeCharReads(c: char, d: char, x: string, y: string)
    requires EscapeChar(c) + x == EscapeChar(d) + y
    ensures c == d && x == y
  {
    var u, v := EscapeChar(c) + x, EscapeChar(d) + y;
    assert u[0] == EscapeChar(c)[0] && v[0] == EscapeChar(d)[0];
    if u[0] == '\\' {
      assert u[1] == EscapeChar(c)[1] && v[1] == EscapeChar(d)[1];
      if u[1] == 'u' {
        assert u[4] == EscapeChar(c)[4] && v[4] == EscapeChar(d)[4];
        assert u[5] == EscapeChar(c)[5] && v[5] == EscapeChar(d)[5];
        HexDigitInjective(c as int / 16, d as int / 16);
        HexDigitInjective(c as int % 16, d as int % 16);
      }
    }
    assert c == d;
    assert u[|EscapeChar(c)|..] == x && v[|EscapeChar(d)|..] == y;
  }

  lemma EscapeCharStarts(c: char)
    ensures EscapeChar(c) != "" && EscapeChar(c)[0] != '"'
  {
  }

  /** The text of `s` starts with the closing quote exactly when `s` is empty. */
  lemma EscapedStarts(s: string, x: string)
    ensures Escaped(s) + x != "" && ((Escaped(s) + x)[0] == '"' <==> s == "")
    ensures if s == "" then Escaped(s) + x == "\"" + x else Escaped(s) + x == EscapeChar(s[0]) + (Escaped(s[1..]) + x)
  {
    if s != "" {
      EscapeCharStarts(s[0]);
      Grouped(EscapeChar(s[0]), Escaped(s[1..]), x);
    }
  }

  lemma Grouped(p: string, u: string, x: string)
    ensures p + u + x == p + (u + x)
  {
  }

  lemma Cancel(p: string, x: string, y: string)
    requires p + x == p + y
    ensures x == y
  {
    assert (p + x)[|p|..] == x && (p + y)[|p|..] == y;
  }

  lemma {:induction false} EscapedReads(s: string, t: string, x: string, y: string)
    requires Escaped(s) + x == Escaped(t) + y
    ensures s == t && x == y
  {
    EscapedStarts(s, x);
    EscapedStarts(t, y);
    if s == "" {
      Cancel("\"", x, y);
    } else {
      EscapeCharReads(s[0], t[0], Escaped(s[1..]) + x, Escaped(t[1..]) + y);
      EscapedReads(s[1..], t[1..], x, y);
      assert s == [s[0]] + s[1..] && t == [t[0]] + t[1..];
    }
  }

  // ----- values -----

  function Render(j: Json): string {
    match j
    case Null => "null"
    case Bool(b) => if b then "true" else "false"
    case Number(lexeme) => lexeme
    case Str(s) => Quoted(s)
    case Array(items) => "[" + RenderItems(items)
    case Object(fields) => "{" + RenderFields(fields)
  }

  function RenderItems(items: seq<Json>): string {
    if items == [] then "]" else Render(items[0]) + RenderMoreItems(items[1..])
  }

  function RenderMoreItems(items: seq<Json>): string {
    if items == [] then "]" else "," + Render(items[0]) + RenderMoreItems(items[1..])
  }

  function RenderField(p: Pair<Json>): string {
    Quoted(p.key) + ":" + Render(p.value)
  }

  function RenderFields(fields: seq<Pair<Json>>): string {
    if fields == [] then "}" else RenderField(fields[0]) + RenderMoreFields(fields[1..])
  }

  function RenderMoreFields(fields: seq<Pair<Json>>): string {
    if fields == [] then "}" else "," + RenderField(fields[0]) + RenderMoreFields(fields[1..])
  }

  /** What can follow a value: nothing, or a character no value starts with or continues with. */
  predicate Ends(x: string) {
    x == "" || x[0] in {',', ']', '}'}
  }

  /** The first character tells the kind of a value, and is never a closing or separating one. */
  lemma FirstChar(j: Json, x: string)
    requires Proper(j)
    ensures Render(j) + x != "" && !Ends(Render(j) + x)
    ensures var c := (Render(j) + x)[0];
            && (j.Null? <==> c == 'n') && (j == Bool(true) <==> c == 't') && (j == Bool(false) <==> c == 'f')
            && (j.Str? <==> c == '"') && (j.Array? <==> c == '[') && (j.Object? <==> c == '{')
  {
    assert (Render(j) + x)[0] == Render(j)[0];
  }

  lemma NumberReads(a: string, b: string, x: string, y: string)
    requires IsNumber(a) && IsNumber(b) && Ends(x) && Ends(y) && a + x == b + y
    ensures a == b && x == y
  {
    NumberStops(a, b, x, y);
    NumberStops(b, a, y, x);
    assert (a + x)[..|a|] == a && (b + y)[..|b|] == b;
    assert (a + x)[|a|..] == x && (b + y)[|b|..] == y;
  }

  lemma NumberStops(a: string, b: string, x: string, y: string)
    requires IsNumber(b) && Ends(x) && a + x == b + y
    ensures |b| <= |a|
  {
    assert |a + x| == |b + y|;
    assert forall k | 0 <= k < |b| :: (b + y)[k] == b[k];
    assert x != "" ==> (a + x)[|a|] == x[0];
  }

  /** Rendered text followed by a terminator determines the value and what follows. */
  lemma {:induction false} RenderReads(a: Json, b: Json, x: string, y: string)
    requires Proper(a) && Proper(b) && Ends(x) && Ends(y)
    requires Render(a) + x == Render(b) + y
    ensures a == b && x == y
    decreases a
  {
    FirstChar(a, x);
    FirstChar(b, y);
    match a
    case Number(lexeme) =>
      NumberReads(lexeme, b.lexeme, x, y);
    case Str(s) =>
      Grouped("\"", Escaped(s), x);
      Grouped("\"", Escaped(b.s), y);
      Cancel("\"", Escaped(s) + x, Escaped(b.s) + y);
      EscapedReads(s, b.s, x, y);
    case Array(items) =>
      Grouped("[", RenderItems(items), x);
      Grouped("[", RenderItems(b.items), y);
      Cancel("[", RenderItems(items) + x, RenderItems(b.items) + y);
      ItemsRead(items, b.items, x, y);
    case Object(fields) =>
      Grouped("{", RenderFields(fields), x);
      Grouped("{", RenderFields(b.fields), y);
      Cancel("{", RenderFields(fields) + x, RenderFields(b.fields) + y);
      FieldsRead(fields, b.fields, x, y);
    case _ =>
      Cancel(Render(a), x, y);
  }

  ghost predicate AllProper(items: seq<Json>) {
    forall i | 0 <= i < |items| :: Proper(items[i])
  }

  lemma MoreItemsEnd(items: seq<Json>, x: string)
    ensures Ends(RenderMoreItems(items) + x)
    ensures var t := RenderMoreItems(items) + x; t != "" && (t[0] == ']' <==> items == [])
  {
    assert (RenderMoreItems(items) + x)[0] == RenderMoreItems(items)[0];
  }

  lemma MoreFieldsEnd(fields: seq<Pair<Json>>, x: string)
    ensures Ends(RenderMoreFields(fields) + x)
    ensures var t := RenderMoreFields(fields) + x; t != "" && (t[0] == '}' <==> fields == [])
  {
    assert (RenderMoreFields(fields) + x)[0] == RenderMoreFields(fields)[0];
  }

  lemma ItemsParts(items: seq<Json>, x: string)
    requires AllProper(items)
    ensures items == [] ==> RenderItems(items) + x == "]" + x
    ensures items != [] ==> RenderItems(items) + x == Render(items[0]) + (RenderMoreItems(items[1..]) + x)
    ensures var t := RenderItems(items) + x; t != "" && (t[0] == ']' <==> items == [])
  {
    if items != [] {
      FirstChar(items[0], RenderMoreItems(items[1..]) + x);
      Grouped(Render(items[0]), RenderMoreItems(items[1..]), x);
    }
  }

  lemma {:induction false} ItemsRead(a: seq<Json>, b: seq<Json>, x: string, y: string)
    requires AllProper(a) && AllProper(b)
    requires RenderItems(a) + x == RenderItems(b) + y
    ensures a == b && x == y
    decreases a, 0
  {
    ItemsParts(a, x);
    ItemsParts(b, y);
    if a == [] {
      Cancel("]", x, y);
    } else {
      MoreItemsEnd(a[1..], x);
      MoreItemsEnd(b[1..], y);
      RenderReads(a[0], b[0], RenderMoreItems(a[1..]) + x, RenderMoreItems(b[1..]) + y);
      MoreItemsRead(a[1..], b[1..], x, y);
      assert a == [a[0]] + a[1..] && b == [b[0]] + b[1..];
    }
  }

  lemma MoreItemsParts(items: seq<Json>, x: string)
    requires items != []
    ensures RenderMoreItems(items) + x == "," + (Render(items[0]) + (RenderMoreItems(items[1..]) + x))
  {
  }

  lemma {:induction false} MoreItemsRead(a: seq<Json>, b: seq<Json>, x: string, y: string)
    requires AllProper(a) && AllProper(b)
    requires RenderMoreItems(a) + x == RenderMoreItems(b) + y
    ensures a == b && x == y
    decreases a
  {
    MoreItemsEnd(a, x);
    MoreItemsEnd(b, y);
    if a == [] {
      Cancel("]", x, y);
    } else {
      var u, v := RenderMoreItems(a[1..]) + x, RenderMoreItems(b[1..]) + y;
      MoreItemsParts(a, x);
      MoreItemsParts(b, y);
      Cancel(",", Render(a[0]) + u, Render(b[0]) + v);
      MoreItemsEnd(a[1..], x);
      MoreItemsEnd(b[1..], y);
      RenderReads(a[0], b[0], u, v);
      MoreItemsRead(a[1..], b[1..], x, y);
      assert a == [a[0]] + a[1..] && b == [b[0]] + b[1..];
    }
  }

  lemma FieldParts(p: Pair<Json>, x: string)
    ensures RenderField(p) + x == "\"" + (Escaped(p.key) + (":" + (Render(p.value) + x)))
  {
  }

  lemma {:induction false} FieldReads(p: Pair<Json>, q: Pair<Json>, x: string, y: string)
    requires Proper(p.value) && Proper(q.value) && Ends(x) && Ends(y)
    requires RenderField(p) + x == RenderField(q) + y
    ensures p == q && x == y
    decreases p, 0
  {
    var u, v := ":" + (Render(p.value) + x), ":" + (Render(q.value) + y);
    FieldParts(p, x);
    FieldParts(q, y);
    Cancel("\"", Escaped(p.key) + u, Escaped(q.key) + v);
    EscapedReads(p.key, q.key, u, v);
    Cancel(":", Render(p.value) + x, Render(q.value) + y);
    RenderReads(p.value, q.value, x, y);
  }

  lemma FieldsParts(fields: seq<Pair<Json>>, x: string)
    ensures fields == [] ==> RenderFields(fields) + x == "}" + x
    ensures fields != [] ==> RenderFields(fields) + x == RenderField(fields[0]) + (RenderMoreFields(fields[1..]) + x)
    ensures var t := RenderFields(fields) + x; t != "" && (t[0] == '}' <==> fields == [])
  {
    if fields != [] {
      FieldParts(fields[0], RenderMoreFields(fields[1..]) + x);
      Grouped(RenderField(fields[0]), RenderMoreFields(fields[1..]), x);
    }
  }

  lemma {:induction false} FieldsRead(a: seq<Pair<Json>>, b: seq<Pair<Json>>, x: string, y: string)
    requires AllFieldsProper(a) && AllFieldsProper(b)
    requires RenderFields(a) + x == RenderFields(b) + y
    ensures a == b && x == y
    decreases a, 0
  {
    FieldsParts(a, x);
    FieldsParts(b, y);
    if a == [] {
      Cancel("}", x, y);
    } else {
      MoreFieldsEnd(a[1..], x);
      MoreFieldsEnd(b[1..], y);
      FieldReads(a[0], b[0], RenderMoreFields(a[1..]) + x, RenderMoreFields(b[1..]) + y);
      MoreFieldsRead(a[1..], b[1..], x, y);
      assert a == [a[0]] + a[1..] && b == [b[0]] + b[1..];
    }
  }

  lemma MoreFieldsParts(fields: seq<Pair<Json>>, x: string)
    requires fields != []
    ensures RenderMoreFields(fields) + x == "," + (RenderField(fields[0]) + (RenderMoreFields(fields[1..]) + x))
  {
  }

  lemma {:induction false} MoreFieldsRead(a: seq<Pair<Json>>, b: seq<Pair<Json>>, x: string, y: string)
    requires AllFieldsProper(a) && AllFieldsProper(b)
    requires RenderMoreFields(a) + x == RenderMoreFields(b) + y
    ensures a == b && x == y
    decreases a
  {
    MoreFieldsEnd(a, x);
    MoreFieldsEnd(b, y);
    if a == [] {
      Cancel("}", x, y);
    } else {
      var u, v := RenderMoreFields(a[1..]) + x, RenderMoreFields(b[1..]) + y;
      MoreFieldsParts(a, x);
      MoreFieldsParts(b, y);
      Cancel(",", RenderField(a[0]) + u, RenderField(b[0]) + v);
      MoreFieldsEnd(a[1..], x);
      MoreFieldsEnd(b[1..], y);
      FieldReads(a[0], b[0], u, v);
      MoreFieldsRead(a[1..], b[1..], x, y);
      assert a == [a[0]] + a[1..] && b == [b[0]] + b[1..];
    }
  }

  // ----- the signature -----

  function SchemaSignature(schema: Json): string {
    Render(StableJson(schema))
  }

  lemma {:induction false} StableKeepsProper(j: Json)
    requires Proper(j)
    ensures Proper(StableJson(j))
  {
    match j
    case Array(items) =>
      StableItemsAt(items);
      forall i | 0 <= i < |items| ensures Proper(StableItems(items)[i]) {
        StableKeepsProper(items[i]);
      }
    case Object(fields) =>
      var stable := StableFields(fields);
      StableFieldsAt(fields);
      forall i | 0 <= i < |fields| ensures Proper(stable[i].value) {
        StableKeepsProper(fields[i].value);
      }
      SortedProper(stable);
    case _ =>
  }

  lemma SortedProper(fields: seq<Pair<Json>>)
    requires DistinctKeys(fields) && AllFieldsProper(fields)
    ensures DistinctKeys(SortPairs(fields)) && AllFieldsProper(SortPairs(fields))
  {
    var sorted := SortPairs(fields);
    SortPairsSorted(fields);
    AscendingDistinct(sorted);
    forall i | 0 <= i < |sorted| ensures Proper(sorted[i].value) {
      assert sorted[i] in sorted;
      SortPairsMember(fields, sorted[i]);
    }
  }

  /** Two schemas have one signature exactly when they are equal up to key order at every depth. */
  lemma SignatureDecides(a: Json, b: Json)
    requires Proper(a) && Proper(b)
    ensures SchemaSignature(a) == SchemaSignature(b) <==> Same(a, b)
  {
    StableIsCanonical(a, b);
    StableKeepsProper(a);
    StableKeepsProper(b);
    if SchemaSignature(a) == SchemaSignature(b) {
      assert SchemaSignature(a) + "" == SchemaSignature(b) + "";
      RenderReads(StableJson(a), StableJson(b), "", "");
    }
  }
}
