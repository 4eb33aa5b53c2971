/** Code-unit order on strings and the sorted list of a set of strings. */
module StringOrder {

  predicate Less(a: string, b: string) {
    b != [] && (a == [] || a[0] < b[0] || (a[0] == b[0] && Less(a[1..], b[1..])))
  }

  /** The shorter of two texts comes first if the other continues it, and otherwise the one with the smaller
      character where they first differ. */
  lemma {:induction false} LessExactly(a: string, b: string)
    ensures Less(a, b) <==> exists i :: CommonUpTo(a, b, i) && i < |b| && (i == |a| || a[i] < b[i])
  {
    if a == [] {
      assert CommonUpTo(a, b, 0);
    } else if b != [] && a[0] == b[0] {
      LessExactly(a[1..], b[1..]);
      if i :| CommonUpTo(a[1..], b[1..], i) && i < |b| - 1 && (i == |a| - 1 || a[1..][i] < b[1..][i]) {
        assert CommonUpTo(a, b, i + 1);
      }
      if i :| CommonUpTo(a, b, i) && i < |b| && (i == |a| || a[i] < b[i]) {
        assert CommonUpTo(a[1..], b[1..], i - 1);
      }
    } else if b != [] {
      assert CommonUpTo(a, b, 0);
    }
  }

  ghost predicate CommonUpTo(a: string, b: string, i: int) {
    0 <= i <= |a| && i <= |b| && forall k | 0 <= k < i :: a[k] == b[k]
  }

  lemma {:induction false} LessTransitive(a: string, b: string, c: string)
    requires Less(a, b) && Less(b, c)
    ensures Less(a, c)
  {
    if a == [] {
    } else if a[0] == b[0] == c[0] {
      LessTransitive(a[1..], b[1..], c[1..]);
    }
  }

  lemma {:induction false} LessTotal(a: string, b: string)
    ensures !(Less(a, b) && Less(b, a)) && !Less(a, a)
    ensures a == b || Less(a, b) || Less(b, a)
  {
    if a == [] {
    } else {
      LessTotal(a[1..], a[1..]);
      if b != [] {
        LessTotal(a[1..], b[1..]);
        assert a == [a[0]] + a[1..] && b == [b[0]] + b[1..];
      }
    }
  }

  ghost predicate Ascending(s: seq<string>) {
    forall i, j | 0 <= i < j < |s| :: Less(s[i], s[j])
  }

  function InsertKey(s: seq<string>, key: string): seq<string> {
    if s == [] then [key]
    else if s[0] == key then s
    else if Less(key, s[0]) then [key] + s
    else [s[0]] + InsertKey(s[1..], key)
  }

  /** The keys in ascending order, each once. */
  function SortKeys(s: seq<string>): seq<string> {
    if s == [] then [] else InsertKey(SortKeys(s[1..]), s[0])
  }

  lemma {:induction false} InsertKeyAscending(s: seq<string>, key: string)
    requires Ascending(s)
    ensures Ascending(InsertKey(s, key))
    ensures forall x :: x in InsertKey(s, key) <==> x == key || x in s
  {
    if s == [] {
    } else if s[0] != key {
      LessTotal(key, s[0]);
      if Less(key, s[0]) {
        forall j | 0 <= j < |s| ensures Less(key, s[j]) {
          if j > 0 {
            LessTransitive(key, s[0], s[j]);
          }
        }
      } else {
        var rest := InsertKey(s[1..], key);
        InsertKeyAscending(s[1..], key);
        forall j | 0 <= j < |rest| ensures Less(s[0], rest[j]) {
          assert rest[j] in rest;
          if rest[j] != key {
            var k :| 0 <= k < |s[1..]| && s[1..][k] == rest[j];
            assert Less(s[0], s[k + 1]);
          }
        }
      }
    }
  }

  lemma {:induction false} SortKeysAscending(s: seq<string>)
    ensures Ascending(SortKeys(s))
    ensures forall x :: x in SortKeys(s) <==> x in s
  {
    if s == [] {
    } else {
      SortKeysAscending(s[1..]);
      InsertKeyAscending(SortKeys(s[1..]), s[0]);
    }
  }

  lemma {:induction false} AscendingDetermined(a: seq<string>, b: seq<string>)
    requires Ascending(a) && Ascending(b) && forall x :: x in a <==> x in b
    ensures a == b
  {
    assert b != [] ==> b[0] in b;
    if a == [] {
    } else {
      assert a[0] in b;
      assert b[0] in a;
      var i :| 0 <= i < |b| && b[i] == a[0];
      var j :| 0 <= j < |a| && a[j] == b[0];
      LessTotal(a[0], b[0]);
      assert a[0] == b[0];
      forall x ensures x in a[1..] <==> x in b[1..] {
        LessTotal(a[0], a[0]);
        if x in a[1..] {
          var k :| 0 <= k < |a[1..]| && a[1..][k] == x;
          assert Less(a[0], a[k + 1]) && x in a;
        }
        if x in b[1..] {
          var k :| 0 <= k < |b[1..]| && b[1..][k] == x;
          assert Less(b[0], b[k + 1]) && x in b;
        }
        assert x in a ==> x == a[0] || x in a[1..];
        assert x in b ==> x == b[0] || x in b[1..];
      }
      AscendingDetermined(a[1..], b[1..]);
    }
  }

  /** The sorted list depends only on which keys there are. */
  lemma SortKeysDetermined(a: seq<string>, b: seq<string>)
    requires forall x :: x in a <==> x in b
    ensures SortKeys(a) == SortKeys(b)
  {
    SortKeysAscending(a);
    SortKeysAscending(b);
    AscendingDetermined(SortKeys(a), SortKeys(b));
  }
}
