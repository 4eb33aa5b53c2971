/** Placeholders such as {count} and the gate that compares them between the
    source texts and their translations. */
module Placeholders {
  import opened Text
  import opened OrderedMap
  import opened StringOrder

  predicate IsWordChar(c: char) {
    'a' <= c <= 'z' || 'A' <= c <= 'Z' || '0' <= c <= '9' || c == '_'
  }

  /** One or more letters, digits and underscores, all of them ASCII. */
  ghost predicate IsWord(s: string) {
    s != "" && forall i | 0 <= i < |s| :: 'a' <= s[i] <= 'z' || 'A' <= s[i] <= 'Z' || '0' <= s[i] <= '9' || s[i] == '_'
  }

  function WordLength(s: string): (n: nat)
    ensures n <= |s|
  {
    if s != "" && IsWordChar(s[0]) then 1 + WordLength(s[1..]) else 0
  }

  /** All matches of {word}, left to right. */
  function Captures(text: string): seq<string>
    decreases |text|
  {
    if text == "" then []
    else
      var n := WordLength(text[1..]);
      if text[0] == '{' && n > 0 && n + 1 < |text| && text[n + 1] == '}' then [text[1..n + 1]] + Captures(text[n + 2..])
      else Captures(text[1..])
  }

  /** The distinct placeholder names of a text, sorted. */
  function ExtractTranslationPlaceholders(text: string): seq<string> {
    SortKeys(Captures(text))
  }

  predicate Braced(text: string, name: string, i: int) {
    0 <= i < |text| && "{" + name + "}" <= text[i..]
  }

  lemma {:induction false} WordLengthMeans(s: string)
    ensures forall i | 0 <= i < WordLength(s) :: IsWordChar(s[i])
    ensures WordLength(s) < |s| ==> !IsWordChar(s[WordLength(s)])
  {
    if s == "" {
    } else if IsWordChar(s[0]) {
      WordLengthMeans(s[1..]);
    }
  }

  lemma {:induction false} BracedAtStart(text: string, name: string)
    requires IsWord(name) && Braced(text, name, 0)
    ensures WordLength(text[1..]) == |name| && |name| + 1 < |text| && text[0] == '{' && text[|name| + 1] == '}' && text[1..|name| + 1] == name
  {
    var n := WordLength(text[1..]);
    WordLengthMeans(text[1..]);
    var whole := "{" + name + "}";
    assert text[0..] == text && whole == text[..|whole|];
    assert text[0] == whole[0] && text[|name| + 1] == whole[|name| + 1];
    assert forall k | 0 <= k < |name| :: text[1..][k] == whole[k + 1] == name[k];
    assert text[1..][|name|] == '}';
    assert forall k | 0 <= k < |name| :: IsWordChar(text[1..][k]);
  }

  /** Where the scan goes on: behind a match, or one character further. */
  function Skip(text: string): (n: nat)
    requires text != ""
    ensures 0 < n <= |text|
  {
    var n := WordLength(text[1..]);
    if text[0] == '{' && n > 0 && n + 1 < |text| && text[n + 1] == '}' then n + 2 else 1
  }

  lemma BracedLater(text: string, name: string, i: int)
    requires text != "" && IsWord(name) && Braced(text, name, i) && i != 0
    ensures Skip(text) <= i && Braced(text[Skip(text)..], name, i - Skip(text))
  {
    var n := WordLength(text[1..]);
    WordLengthMeans(text[1..]);
    assert text[i..][0] == text[i] == '{';
    assert forall k | 0 <= k < n :: text[1..][k] == text[k + 1];
    assert text[Skip(text)..][i - Skip(text)..] == text[i..];
  }

  lemma BracedNow(text: string)
    requires text != "" && Skip(text) > 1
    ensures var name := text[1..Skip(text) - 1]; IsWord(name) && Braced(text, name, 0)
  {
    var n := WordLength(text[1..]);
    WordLengthMeans(text[1..]);
    assert forall k | 0 <= k < n :: text[1..n + 1][k] == text[1..][k];
    assert "{" + text[1..n + 1] + "}" == text[..n + 2] && text[0..] == text;
  }

  /** A word in braces is at the start of the text or behind where the scan goes on. */
  lemma BracedSplit(text: string, name: string)
    requires text != "" && IsWord(name)
    ensures (exists i :: Braced(text, name, i)) <==> Braced(text, name, 0) || exists i :: Braced(text[Skip(text)..], name, i)
    ensures Braced(text, name, 0) ==> Skip(text) == |name| + 2 && text[1..Skip(text) - 1] == name
  {
    var skip := Skip(text);
    if i :| Braced(text[skip..], name, i) {
      assert text[skip..][i..] == text[skip + i..];
      assert Braced(text, name, skip + i);
    }
    if i :| Braced(text, name, i) && i != 0 {
      BracedLater(text, name, i);
    }
    if Braced(text, name, 0) {
      BracedAtStart(text, name);
    }
  }

  /** A name is captured exactly when it is a word that occurs in braces in the text. */
  lemma {:induction false} CapturesExact(text: string, name: string)
    ensures name in Captures(text) <==> IsWord(name) && exists i :: Braced(text, name, i)
    decreases |text|
  {
    if text == "" {
    } else {
      var skip := Skip(text);
      assert Captures(text) == (if skip > 1 then [text[1..skip - 1]] else []) + Captures(text[skip..]);
      CapturesExact(text[skip..], name);
      if skip > 1 {
        BracedNow(text);
      }
      if IsWord(name) {
        BracedSplit(text, name);
      }
    }
  }

  /** The texts have the same placeholders. */
  ghost predicate SamePlaceholders(source: string, translated: string) {
    forall name | IsWord(name) :: (exists i :: Braced(source, name, i)) <==> (exists i :: Braced(translated, name, i))
  }

  function Translation(translated: seq<Pair<string>>, key: string): string {
    match Get(translated, key) case Some(text) => text case None => ""
  }

  datatype Mismatch = Mismatch(key: string, locale: string, sourcePlaceholders: seq<string>, translatedPlaceholders: seq<string>)

  function Compare(p: Pair<string>, translated: seq<Pair<string>>, locale: string): Mismatch {
    Mismatch(p.key, locale, ExtractTranslationPlaceholders(p.value), ExtractTranslationPlaceholders(Translation(translated, p.key)))
  }

  function Mismatches(source: seq<Pair<string>>, translated: seq<Pair<string>>, locale: string): seq<Mismatch> {
    if source == [] then []
    else
      var last := Compare(source[|source| - 1], translated, locale);
      Mismatches(source[..|source| - 1], translated, locale)
      + if last.sourcePlaceholders != last.translatedPlaceholders then [last] else []
  }

  /** The keys whose source and translation differ in their placeholders, with both lists. */
  method FindPlaceholderMismatches(source: seq<Pair<string>>, translated: seq<Pair<string>>, locale: string) returns (mismatches: seq<Mismatch>)
    ensures mismatches == Mismatches(source, translated, locale)
  {
    mismatches := [];
    for i := 0 to |source|
      invariant mismatches == Mismatches(source[..i], translated, locale)
    {
      assert source[..i + 1][..i] == source[..i];
      var sourcePlaceholders := ExtractTranslationPlaceholders(source[i].value);
      var translatedPlaceholders := ExtractTranslationPlaceholders(Translation(translated, source[i].key));
      if sourcePlaceholders != translatedPlaceholders {
        mismatches := mismatches + [Mismatch(source[i].key, locale, sourcePlaceholders, translatedPlaceholders)];
      }
    }
    assert source[..|source|] == source;
  }

  /** The list of a text's placeholders is sorted and holds exactly the words in braces, once each. */
  lemma PlaceholdersListed(text: string)
    ensures Ascending(ExtractTranslationPlaceholders(text))
    ensures forall name :: name in ExtractTranslationPlaceholders(text) <==> IsWord(name) && exists i :: Braced(text, name, i)
  {
    SortKeysAscending(Captures(text));
    forall name ensures name in Captures(text) <==> IsWord(name) && exists i :: Braced(text, name, i) {
      CapturesExact(text, name);
    }
  }

  lemma SamePlaceholdersExactly(source: string, translated: string)
    ensures ExtractTranslationPlaceholders(source) == ExtractTranslationPlaceholders(translated) <==> SamePlaceholders(source, translated)
  {
    PlaceholdersListed(source);
    PlaceholdersListed(translated);
    SortKeysAscending(Captures(source));
    SortKeysAscending(Captures(translated));
    if SamePlaceholders(source, translated) {
      SortKeysDetermined(Captures(source), Captures(translated));
    }
  }

  /** `names` is the sorted list of the text's placeholders. */
  ghost predicate Lists(names: seq<string>, text: string) {
    Ascending(names) && forall name :: name in names <==> IsWord(name) && exists i :: Braced(text, name, i)
  }

  /** The translation of `p` changed its placeholders, and `m` says how. */
  ghost predicate Changes(p: Pair<string>, translated: seq<Pair<string>>, locale: string, m: Mismatch) {
    var text := match Get(translated, p.key) case Some(text) => text case None => "";
    && !SamePlaceholders(p.value, text)
    && m.key == p.key && m.locale == locale && Lists(m.sourcePlaceholders, p.value) && Lists(m.translatedPlaceholders, text)
  }

  lemma ComparedExactly(p: Pair<string>, translated: seq<Pair<string>>, locale: string, m: Mismatch)
    ensures var compared := Compare(p, translated, locale);
            Changes(p, translated, locale, m) <==> compared.sourcePlaceholders != compared.translatedPlaceholders && m == compared
  {
    var text := Translation(translated, p.key);
    SamePlaceholdersExactly(p.value, text);
    PlaceholdersListed(p.value);
    PlaceholdersListed(text);
    if Changes(p, translated, locale, m) {
      AscendingDetermined(m.sourcePlaceholders, ExtractTranslationPlaceholders(p.value));
      AscendingDetermined(m.translatedPlaceholders, ExtractTranslationPlaceholders(text));
    }
  }

  /** The gate reports exactly the keys whose placeholders changed, each with the two lists. */
  lemma {:induction false} MismatchesExact(source: seq<Pair<string>>, translated: seq<Pair<string>>, locale: string, m: Mismatch)
    ensures m in Mismatches(source, translated, locale) <==> exists p | p in source :: Changes(p, translated, locale, m)
  {
    if source == [] {
    } else {
      var init, last := source[..|source| - 1], source[|source| - 1];
      ComparedExactly(last, translated, locale, m);
      MismatchesExact(init, translated, locale, m);
      assert source == init + [last];
    }
  }

  /** The gate lets a locale through exactly when every text has the placeholders of its source. */
  lemma GateOpens(source: seq<Pair<string>>, translated: seq<Pair<string>>, locale: string)
    ensures Mismatches(source, translated, locale) == [] <==> forall p | p in source :: SamePlaceholders(p.value, Translation(translated, p.key))
  {
    var found := Mismatches(source, translated, locale);
    if found != [] {
      MismatchesExact(source, translated, locale, found[0]);
      var p :| p in source && Changes(p, translated, locale, found[0]);
    }
    if p :| p in source && !SamePlaceholders(p.value, Translation(translated, p.key)) {
      SamePlaceholdersExactly(p.value, Translation(translated, p.key));
      ComparedExactly(p, translated, locale, Compare(p, translated, locale));
      MismatchesExact(source, translated, locale, Compare(p, translated, locale));
    }
  }
}
