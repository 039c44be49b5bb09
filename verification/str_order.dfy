/**
 * Python's ordering of `str` values (code point by code point, a proper
 * prefix first) and `list.sort()` on a list of them.
 */
module StrOrder {

  /** `a < b` on Python strings. */
  predicate Below(a: string, b: string)
    decreases |a|
  {
    if a == [] then b != []
    else if b == [] then false
    else if a[0] != b[0] then a[0] < b[0]
    else Below(a[1..], b[1..])
  }

  lemma {:induction false} BelowIrreflexive(a: string)
    ensures !Below(a, a)
    decreases |a|
  {
    if a != [] {
      BelowIrreflexive(a[1..]);
    }
  }

  lemma {:induction false} BelowTransitive(a: string, b: string, c: string)
    requires Below(a, b) && Below(b, c)
    ensures Below(a, c)
    decreases |a|
  {
    if a != [] && a[0] == b[0] && b[0] == c[0] {
      BelowTransitive(a[1..], b[1..], c[1..]);
    }
  }

  lemma {:induction false} BelowTotal(a: string, b: string)
    requires a != b
    ensures Below(a, b) || Below(b, a)
    decreases |a|
  {
    if a != [] && b != [] && a[0] == b[0] {
      assert a == [a[0]] + a[1..] && b == [b[0]] + b[1..];
      BelowTotal(a[1..], b[1..]);
    }
  }

  /** Sorted strings are ordered by their first characters. */
  lemma BelowFirstChar(a: string, b: string)
    requires a != [] && b != [] && Below(a, b)
    ensures a[0] <= b[0]
  {
  }

  /** Strictly ascending, hence without repeats. */
  predicate Ascending(s: seq<string>) {
    forall i, j :: 0 <= i < j < |s| ==> Below(s[i], s[j])
  }

  predicate Distinct(s: seq<string>) {
    forall i, j :: 0 <= i < j < |s| ==> s[i] != s[j]
  }

  /** Places `x` before the first element that is not below it. */
  function Insert(x: string, s: seq<string>): (r: seq<string>)
    ensures multiset(r) == multiset(s) + multiset{x}
    decreases |s|
  {
    if s == [] || !Below(s[0], x) then [x] + s
    else
      assert s == [s[0]] + s[1..];
      [s[0]] + Insert(x, s[1..])
  }

  /** `sorted(s)`: insertion sort, which gives the one ascending order of distinct strings. */
  function Sort(s: seq<string>): (r: seq<string>)
    ensures multiset(r) == multiset(s)
    decreases |s|
  {
    if s == [] then []
    else
      assert s == [s[0]] + s[1..];
      Insert(s[0], Sort(s[1..]))
  }

  lemma {:induction false} InsertAscending(x: string, s: seq<string>)
    requires Ascending(s) && x !in s
    ensures Ascending(Insert(x, s))
    decreases |s|
  {
    if s != [] && Below(s[0], x) {
      InsertAscending(x, s[1..]);
      var r := Insert(x, s);
      var t := Insert(x, s[1..]);
      assert r == [s[0]] + t;
      forall k | 0 <= k < |t|
        ensures Below(s[0], t[k])
      {
        assert t[k] in multiset(t);
        if t[k] != x {
          assert t[k] in multiset(s[1..]);
          var m :| 0 <= m < |s[1..]| && s[1..][m] == t[k];
          assert s[m + 1] == t[k];
        }
      }
    } else if s != [] {
      BelowTotal(x, s[0]);
      forall i | 0 < i < |s|
        ensures Below(x, s[i])
      {
        BelowTransitive(x, s[0], s[i]);
      }
    }
  }

  lemma {:induction false} SortAscending(s: seq<string>)
    requires Distinct(s)
    ensures Ascending(Sort(s))
    decreases |s|
  {
    if s != [] {
      assert Distinct(s[1..]);
      SortAscending(s[1..]);
      assert s[0] !in s[1..] by {
        forall m | 0 <= m < |s[1..]|
          ensures s[1..][m] != s[0]
        {
          assert s[1..][m] == s[m + 1];
        }
      }
      assert s[0] !in multiset(Sort(s[1..]));
      InsertAscending(s[0], Sort(s[1..]));
    }
  }

  /**
   * Sorting a list of distinct strings gives them back in ascending order,
   * each exactly once.
   */
  lemma SortSpec(s: seq<string>)
    requires Distinct(s)
    ensures Ascending(Sort(s)) && |Sort(s)| == |s|
    ensures forall x :: x in Sort(s) <==> x in s
  {
    SortAscending(s);
    assert |Sort(s)| == |multiset(Sort(s))| == |multiset(s)| == |s|;
    forall x
      ensures x in Sort(s) <==> x in s
    {
      assert x in Sort(s) <==> x in multiset(Sort(s));
      assert x in s <==> x in multiset(s);
    }
  }

  /** In an ascending list the empty string can only come first. */
  lemma AscendingNonEmpty(s: seq<string>)
    requires Ascending(s) && s != [] && s[0] != []
    ensures forall k :: 0 <= k < |s| ==> s[k] != []
  {
    forall k | 0 < k < |s|
      ensures s[k] != []
    {
      assert Below(s[0], s[k]);
    }
  }

  /** In an ascending list of non-empty strings the first characters never go down. */
  lemma AscendingFirstChars(s: seq<string>, i: nat, j: nat)
    requires Ascending(s) && i <= j < |s| && s[i] != [] && s[j] != []
    ensures s[i][0] <= s[j][0]
  {
    if i < j {
      BelowFirstChar(s[i], s[j]);
    }
  }
}
