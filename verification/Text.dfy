/** String operations of the script runtime that several components share. */
module Text {

  datatype Option<+T> = None | Some(value: T)

  datatype Result<+T> = Ok(value: T) | Err(message: string)

  /** White space and line terminators, as String.prototype.trim removes them. */
  predicate IsSpace(c: char) {
    var n := c as int;
    || 9 <= n <= 13 || n == 32 || n == 0xa0 || n == 0x1680 || 0x2000 <= n <= 0x200a
    || n == 0x2028 || n == 0x2029 || n == 0x202f || n == 0x205f || n == 0x3000 || n == 0xfeff
  }

  function TrimStart(s: string): string {
    if s != [] && IsSpace(s[0]) then TrimStart(s[1..]) else s
  }

  function TrimEnd(s: string): string {
    if s != [] && IsSpace(s[|s| - 1]) then TrimEnd(s[..|s| - 1]) else s
  }

  function Trim(s: string): string {
    TrimEnd(TrimStart(s))
  }

  predicate Contains(s: string, part: string) {
    exists i | 0 <= i <= |s| :: part <= s[i..]
  }

  predicate StartsWith(s: string, prefix: string) {
    prefix <= s
  }

  /** Lower case of the ASCII letters. */
  function Lower(s: string): string {
    seq(|s|, i requires 0 <= i < |s| => if 'A' <= s[i] <= 'Z' then s[i] - 'A' + 'a' else s[i])
  }

  function Join(parts: seq<string>, separator: string): string {
    if parts == [] then ""
    else if |parts| == 1 then parts[0]
    else parts[0] + separator + Join(parts[1..], separator)
  }

  // ----- what these operations mean -----

  lemma ContainsExactly(s: string, part: string)
    ensures Contains(s, part) <==> exists before, after :: s == before + part + after
  {
    if Contains(s, part) {
      var i :| 0 <= i <= |s| && part <= s[i..];
      assert s == s[..i] + part + s[i + |part|..];
    }
    if before, after :| s == before + part + after {
      assert s[|before|..] == part + after;
    }
  }

  lemma LowerConcat(a: string, b: string)
    ensures Lower(a + b) == Lower(a) + Lower(b)
  {
  }

  lemma LowerSlice(s: string, i: nat, j: nat)
    requires i <= j <= |s|
    ensures Lower(s[i..j]) == Lower(s)[i..j]
  {
  }

  /** Whatever the case of its letters, a text in lower case is found where a word of the same letters stands, and only there. */
  lemma FoundInAnyCase(s: string, part: string)
    ensures Contains(Lower(s), part) <==> exists before, word, after :: s == before + word + after && Lower(word) == part
  {
    if Contains(Lower(s), part) {
      var i :| 0 <= i <= |s| && part <= Lower(s)[i..];
      var j := i + |part|;
      LowerSlice(s, i, j);
      assert Lower(s)[i..j] == part;
      assert s == s[..i] + s[i..j] + s[j..];
    }
    if before, word, after :| s == before + word + after && Lower(word) == part {
      LowerConcat(before + word, after);
      LowerConcat(before, word);
      ContainsExactly(Lower(s), part);
      assert Lower(s) == Lower(before) + part + Lower(after);
    }
  }

  ghost predicate AllSpace(s: string) {
    forall i | 0 <= i < |s| :: IsSpace(s[i])
  }

  ghost predicate Tight(s: string) {
    s != "" ==> !IsSpace(s[0]) && !IsSpace(s[|s| - 1])
  }

  lemma {:induction false} TrimStartExactly(s: string) returns (before: string)
    ensures s == before + TrimStart(s) && AllSpace(before)
    ensures TrimStart(s) != "" ==> !IsSpace(TrimStart(s)[0])
  {
    if s == "" {
      before := "";
    } else if IsSpace(s[0]) {
      var rest := TrimStartExactly(s[1..]);
      before := [s[0]] + rest;
      assert s == [s[0]] + s[1..];
    } else {
      before := "";
    }
  }

  lemma {:induction false} TrimEndExactly(s: string) returns (after: string)
    ensures s == TrimEnd(s) + after && AllSpace(after)
    ensures TrimEnd(s) != "" ==> !IsSpace(TrimEnd(s)[|TrimEnd(s)| - 1])
  {
    if s == "" {
      after := "";
    } else if IsSpace(s[|s| - 1]) {
      var rest := TrimEndExactly(s[..|s| - 1]);
      after := rest + [s[|s| - 1]];
      assert s == s[..|s| - 1] + [s[|s| - 1]];
    } else {
      after := "";
    }
  }

  /** Trimming removes white space at both ends, all of it and nothing else. */
  lemma TrimExactly(s: string) returns (before: string, after: string)
    ensures s == before + Trim(s) + after && AllSpace(before) && AllSpace(after) && Tight(Trim(s))
  {
    before := TrimStartExactly(s);
    after := TrimEndExactly(TrimStart(s));
    assert Trim(s) != "" ==> TrimStart(s)[0] == Trim(s)[0];
  }

  ghost predicate Trimmed(s: string, t: string) {
    exists before, after :: s == before + t + after && AllSpace(before) && AllSpace(after) && Tight(t)
  }

  /** A text is blank, that is trimmed to nothing, exactly when it is all white space. */
  lemma BlankExactly(s: string)
    ensures Trimmed(s, Trim(s))
    ensures Trim(s) == "" <==> AllSpace(s)
  {
    var before, after := TrimExactly(s);
    assert Trim(s) != "" ==> s[|before|] == Trim(s)[0];
    assert Trim(s) == "" ==> s == before + after;
  }
}
