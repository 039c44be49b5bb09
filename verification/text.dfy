/**
 * The Python string and list operations the tag pipeline is built from, with
 * the edge cases CPython gives them: `strip`, `find`/`rfind`, `split` with and
 * without a limit, `join`, slicing with negative and out-of-range bounds,
 * `int()` on text and `str()` on integers.
 */
module Text {
  import opened Wrappers

  /** `str.isspace()` for one character: CPython's whitespace table. */
  predicate IsSpace(c: char) {
    var n := c as int;
    (9 <= n <= 13) || (28 <= n <= 32) || n == 0x85 || n == 0xA0 || n == 0x1680
    || (0x2000 <= n <= 0x200A) || n == 0x2028 || n == 0x2029 || n == 0x202F
    || n == 0x205F || n == 0x3000
  }

  /** Drops the leading characters that satisfy `drop`. */
  function TrimLeft(s: string, drop: char -> bool): (r: string)
    ensures |r| <= |s| && r == s[|s| - |r|..]
    ensures r != [] ==> !drop(r[0])
    ensures forall k :: 0 <= k < |s| - |r| ==> drop(s[k])
    decreases |s|
  {
    if s != [] && drop(s[0]) then TrimLeft(s[1..], drop) else s
  }

  /** Drops the trailing characters that satisfy `drop`. */
  function TrimRight(s: string, drop: char -> bool): (r: string)
    ensures |r| <= |s| && r == s[..|r|]
    ensures r != [] ==> !drop(r[|r| - 1])
    ensures forall k :: |r| <= k < |s| ==> drop(s[k])
    decreases |s|
  {
    if s != [] && drop(s[|s| - 1]) then TrimRight(s[..|s| - 1], drop) else s
  }

  /** `s.strip()`: whitespace removed from both ends. */
  function Strip(s: string): string {
    TrimRight(TrimLeft(s, IsSpace), IsSpace)
  }

  /** `s.strip(c)` for a one-character argument. */
  function StripChar(s: string, c: char): string {
    TrimRight(TrimLeft(s, x => x == c), x => x == c)
  }

  /** A string that neither starts nor ends with whitespace is its own `strip()`. */
  lemma StripUnchanged(s: string)
    requires s != [] ==> !IsSpace(s[0]) && !IsSpace(s[|s| - 1])
    ensures Strip(s) == s
  {
  }

  /** `sub` occurs in `s` starting at index `i`. */
  predicate OccursAt(s: string, sub: string, i: int) {
    0 <= i && i + |sub| <= |s| && s[i..i + |sub|] == sub
  }

  lemma OccursShift(s: string, sub: string, k: int)
    requires s != [] && k >= 0
    ensures OccursAt(s[1..], sub, k) <==> OccursAt(s, sub, k + 1)
  {
    if 0 <= k && k + |sub| <= |s| - 1 {
      assert s[1..][k..k + |sub|] == s[k + 1..k + 1 + |sub|];
    }
  }

  lemma OccursInPrefix(s: string, sub: string, n: nat, k: int)
    requires n <= |s|
    ensures OccursAt(s[..n], sub, k) <==> OccursAt(s, sub, k) && k + |sub| <= n
  {
    if 0 <= k && k + |sub| <= n {
      assert s[..n][k..k + |sub|] == s[k..k + |sub|];
    }
  }

  /** `sub` occurs nowhere in `s`. */
  ghost predicate Lacks(s: string, sub: string) {
    forall k :: !OccursAt(s, sub, k)
  }

  /** `s.find(sub)`: the first index where `sub` occurs, or -1. */
  function Find(s: string, sub: string): (r: int)
    ensures r == -1 ==> forall k :: !OccursAt(s, sub, k)
    ensures r != -1 ==> OccursAt(s, sub, r) && forall k :: 0 <= k < r ==> !OccursAt(s, sub, k)
    decreases |s|
  {
    if |s| < |sub| then -1
    else if s[..|sub|] == sub then 0
    else
      var k := Find(s[1..], sub);
      assert forall j :: j >= 0 ==> (OccursAt(s[1..], sub, j) <==> OccursAt(s, sub, j + 1)) by {
        forall j | j >= 0 { OccursShift(s, sub, j); }
      }
      assert !OccursAt(s, sub, 0);
      assert forall j :: OccursAt(s, sub, j) ==> j >= 1 && OccursAt(s[1..], sub, j - 1);
      if k == -1 then -1 else k + 1
  }

  /** `s.rfind(sub)`: the last index where `sub` occurs, or -1. */
  function RFind(s: string, sub: string): (r: int)
    ensures r == -1 ==> forall k :: !OccursAt(s, sub, k)
    ensures r != -1 ==> OccursAt(s, sub, r) && forall k :: r < k ==> !OccursAt(s, sub, k)
    decreases |s|
  {
    if |s| < |sub| then -1
    else if s[|s| - |sub|..] == sub then |s| - |sub|
    else
      var k := RFind(s[..|s| - 1], sub);
      assert forall j :: OccursAt(s[..|s| - 1], sub, j) <==> OccursAt(s, sub, j) && j + |sub| <= |s| - 1 by {
        forall j { OccursInPrefix(s, sub, |s| - 1, j); }
      }
      assert !OccursAt(s, sub, |s| - |sub|);
      assert forall j :: OccursAt(s, sub, j) ==> OccursAt(s[..|s| - 1], sub, j);
      k
  }

  /** `find` returns 0 exactly when `sub` is a prefix of `s`. */
  lemma FindZeroIsPrefix(s: string, sub: string)
    ensures Find(s, sub) == 0 <==> sub <= s
  {
    if sub <= s {
      assert OccursAt(s, sub, 0);
    }
  }

  /** Nothing in `s` before the first occurrence of `sub` contains `sub`. */
  lemma NoOccurrenceBeforeFind(s: string, sub: string, i: int)
    requires 0 <= i <= |s| && sub != []
    requires forall k :: 0 <= k < i ==> !OccursAt(s, sub, k)
    ensures Find(s[..i], sub) == -1
  {
    forall k ensures !OccursAt(s[..i], sub, k) {
      OccursInPrefix(s, sub, i, k);
    }
  }

  /** A one-character `sub` occurs exactly where that character stands. */
  lemma OccursOneChar(s: string, c: char, k: int)
    ensures OccursAt(s, [c], k) <==> 0 <= k < |s| && s[k] == c
  {
    if 0 <= k < |s| {
      assert s[k..k + 1] == [s[k]];
    }
  }

  /** `c in s` is `s.find(c) != -1`, and `find` stops at the first `c`. */
  lemma FindChar(s: string, c: char)
    ensures c in s <==> Find(s, [c]) != -1
    ensures Find(s, [c]) != -1 ==> s[Find(s, [c])] == c && c !in s[..Find(s, [c])]
  {
    var r := Find(s, [c]);
    if c in s {
      var k :| 0 <= k < |s| && s[k] == c;
      OccursOneChar(s, c, k);
    }
    if r != -1 {
      OccursOneChar(s, c, r);
      forall k | 0 <= k < r ensures s[k] != c {
        OccursOneChar(s, c, k);
      }
    }
  }

  /** `c in s` is `s.rfind(c) != -1`, and nothing after the found `c` is a `c`. */
  lemma RFindChar(s: string, c: char)
    ensures c in s <==> RFind(s, [c]) != -1
    ensures RFind(s, [c]) != -1 ==> s[RFind(s, [c])] == c && c !in s[RFind(s, [c]) + 1..]
  {
    var r := RFind(s, [c]);
    if c in s {
      var k :| 0 <= k < |s| && s[k] == c;
      OccursOneChar(s, c, k);
    }
    if r != -1 {
      OccursOneChar(s, c, r);
      forall k | r < k < |s| ensures s[k] != c {
        OccursOneChar(s, c, k);
      }
      var after := s[r + 1..];
      forall j | 0 <= j < |after| ensures after[j] != c {
        assert after[j] == s[r + 1 + j];
      }
    }
  }

  /** In `a + [c] + b` with no `c` in `a`, the first `c` is the one after `a`. */
  lemma FindAfterPrefix(a: string, c: char, b: string)
    requires c !in a
    ensures Find(a + [c] + b, [c]) == |a|
  {
    var s := a + [c] + b;
    OccursOneChar(s, c, |a|);
    var r := Find(s, [c]);
    OccursOneChar(s, c, r);
  }

  /** Occurrences in a suffix are occurrences in the whole string, shifted. */
  lemma OccursInSuffix(s: string, sub: string, n: nat, k: int)
    requires n <= |s| && k >= 0
    ensures OccursAt(s[n..], sub, k) <==> OccursAt(s, sub, k + n)
  {
    if k + |sub| <= |s| - n {
      assert s[n..][k..k + |sub|] == s[k + n..k + n + |sub|];
    }
  }

  /** `s.split(sep)` for a non-empty separator. */
  function Split(s: string, sep: string): (parts: seq<string>)
    requires sep != []
    ensures |parts| >= 1
    decreases |s|
  {
    var i := Find(s, sep);
    if i == -1 then [s] else [s[..i]] + Split(s[i + |sep|..], sep)
  }

  /** No piece of `str.split(sep)` holds the separator. */
  lemma {:induction false} SplitPieces(s: string, sep: string)
    requires sep != []
    ensures forall k :: 0 <= k < |Split(s, sep)| ==> Lacks(Split(s, sep)[k], sep)
    decreases |s|
  {
    var parts := Split(s, sep);
    var i := Find(s, sep);
    if i != -1 {
      var tail := Split(s[i + |sep|..], sep);
      assert parts == [s[..i]] + tail;
      FirstPieceFree(s, sep, i);
      SplitPieces(s[i + |sep|..], sep);
      PiecesCons(s[..i], tail, sep);
    } else {
      assert parts == [s];
    }
  }

  /** A separator-free piece in front keeps the pieces separator-free. */
  lemma PiecesCons(h: string, tail: seq<string>, sep: string)
    requires Lacks(h, sep)
    ensures (forall k :: 0 <= k < |tail| - 1 ==> Lacks(tail[k], sep))
      ==> forall k :: 0 <= k < |[h] + tail| - 1 ==> Lacks(([h] + tail)[k], sep)
    ensures (forall k :: 0 <= k < |tail| ==> Lacks(tail[k], sep))
      ==> forall k :: 0 <= k < |[h] + tail| ==> Lacks(([h] + tail)[k], sep)
  {
    forall k | 0 < k < |[h] + tail|
      ensures ([h] + tail)[k] == tail[k - 1]
    {
    }
  }

  /** The text before the first occurrence of `sep` holds no `sep`. */
  lemma FirstPieceFree(s: string, sep: string, i: int)
    requires sep != [] && i == Find(s, sep) && i != -1
    ensures Lacks(s[..i], sep)
  {
    forall j ensures !OccursAt(s[..i], sep, j) {
      OccursInPrefix(s, sep, i, j);
    }
  }

  /** `s.split(sep, maxsplit)`: at most `maxsplit` cuts, the rest stays in the last part. */
  function SplitN(s: string, sep: string, maxsplit: nat): (parts: seq<string>)
    requires sep != []
    ensures 1 <= |parts| <= maxsplit + 1
    decreases maxsplit
  {
    var i := Find(s, sep);
    if maxsplit == 0 || i == -1 then [s] else [s[..i]] + SplitN(s[i + |sep|..], sep, maxsplit - 1)
  }

  /** Every piece but the last holds no separator; the last holds none either when fewer than `maxsplit` cuts were made. */
  lemma {:induction false} SplitNPieces(s: string, sep: string, maxsplit: nat)
    requires sep != []
    ensures forall k :: 0 <= k < |SplitN(s, sep, maxsplit)| - 1 ==> Lacks(SplitN(s, sep, maxsplit)[k], sep)
    ensures |SplitN(s, sep, maxsplit)| <= maxsplit ==>
      forall k :: 0 <= k < |SplitN(s, sep, maxsplit)| ==> Lacks(SplitN(s, sep, maxsplit)[k], sep)
    decreases maxsplit
  {
    var parts := SplitN(s, sep, maxsplit);
    var i := Find(s, sep);
    if maxsplit != 0 && i != -1 {
      var tail := SplitN(s[i + |sep|..], sep, maxsplit - 1);
      assert parts == [s[..i]] + tail;
      FirstPieceFree(s, sep, i);
      SplitNPieces(s[i + |sep|..], sep, maxsplit - 1);
      PiecesCons(s[..i], tail, sep);
    } else {
      assert parts == [s];
    }
  }

  /** Splitting on a character that the text before its first occurrence does not hold. */
  lemma SplitCons(a: string, c: char, b: string)
    requires c !in a
    ensures Split(a + [c] + b, [c]) == [a] + Split(b, [c])
  {
    FindAfterPrefix(a, c, b);
    assert (a + [c] + b)[..|a|] == a;
    assert (a + [c] + b)[|a| + 1..] == b;
  }

  lemma SplitNCons(a: string, c: char, b: string, n: nat)
    requires c !in a && n > 0
    ensures SplitN(a + [c] + b, [c], n) == [a] + SplitN(b, [c], n - 1)
  {
    FindAfterPrefix(a, c, b);
    assert (a + [c] + b)[..|a|] == a;
    assert (a + [c] + b)[|a| + 1..] == b;
  }

  /** Text without the separator character splits into itself alone. */
  lemma SplitWithout(s: string, c: char, n: nat)
    requires c !in s
    ensures Split(s, [c]) == [s] && SplitN(s, [c], n) == [s]
  {
    FindChar(s, c);
  }

  /** `sep.join(parts)`. */
  function Join(parts: seq<string>, sep: string): string
  {
    if parts == [] then []
    else if |parts| == 1 then parts[0]
    else parts[0] + sep + Join(parts[1..], sep)
  }

  lemma JoinCons(p: string, rest: seq<string>, sep: string)
    requires rest != []
    ensures Join([p] + rest, sep) == p + sep + Join(rest, sep)
  {
    assert ([p] + rest)[1..] == rest;
  }

  /** Where `find` finds the separator, the text is what precedes it, the separator and the rest. */
  lemma FindCut(s: string, sep: string) returns (i: int)
    ensures i == Find(s, sep)
    ensures i != -1 ==> 0 <= i && i + |sep| <= |s| && s == s[..i] + sep + s[i + |sep|..]
  {
    i := Find(s, sep);
    if i != -1 {
      assert s[i..i + |sep|] == sep;
      assert s == s[..i] + s[i..i + |sep|] + s[i + |sep|..];
    }
  }

  /** Splitting and joining with the same separator gives the text back. */
  lemma {:induction false} JoinSplit(s: string, sep: string)
    requires sep != []
    ensures Join(Split(s, sep), sep) == s
    decreases |s|, 1
  {
    var i := FindCut(s, sep);
    if i != -1 {
      JoinSplitAt(s, sep, i);
    }
  }

  lemma {:induction false} JoinSplitAt(s: string, sep: string, i: int)
    requires sep != [] && i == Find(s, sep) && 0 <= i && i + |sep| <= |s|
    requires s == s[..i] + sep + s[i + |sep|..]
    ensures Join(Split(s, sep), sep) == s
    decreases |s|, 0
  {
    var rest := s[i + |sep|..];
    var tail := Split(rest, sep);
    assert Split(s, sep) == [s[..i]] + tail;
    JoinSplit(rest, sep);
    JoinCons(s[..i], tail, sep);
  }

  /** The same round trip for a limited split. */
  lemma {:induction false} JoinSplitN(s: string, sep: string, maxsplit: nat)
    requires sep != []
    ensures Join(SplitN(s, sep, maxsplit), sep) == s
    decreases maxsplit, 1
  {
    var i := FindCut(s, sep);
    if maxsplit != 0 && i != -1 {
      JoinSplitNAt(s, sep, maxsplit, i);
    }
  }

  lemma {:induction false} JoinSplitNAt(s: string, sep: string, maxsplit: nat, i: int)
    requires sep != [] && maxsplit != 0 && i == Find(s, sep) && 0 <= i && i + |sep| <= |s|
    requires s == s[..i] + sep + s[i + |sep|..]
    ensures Join(SplitN(s, sep, maxsplit), sep) == s
    decreases maxsplit, 0
  {
    var rest := s[i + |sep|..];
    var tail := SplitN(rest, sep, maxsplit - 1);
    assert SplitN(s, sep, maxsplit) == [s[..i]] + tail;
    JoinSplitN(rest, sep, maxsplit - 1);
    JoinCons(s[..i], tail, sep);
  }

  /** Splitting on a character distributes over a join at that character. */
  lemma {:induction false} SplitConcat(p: string, c: char, q: string)
    ensures Split(p + [c] + q, [c]) == Split(p, [c]) + Split(q, [c])
    decreases |p|, 1
  {
    if c !in p {
      SplitConcatPlain(p, c, q);
    } else {
      var i := FirstOccurrence(p, c);
      SplitConcatAt(p, c, q, i);
    }
  }

  /** The inductive step of `SplitConcat`, cutting `p` at its first `c`. */
  lemma {:induction false} SplitConcatAt(p: string, c: char, q: string, i: nat)
    requires i < |p| && p[i] == c && c !in p[..i]
    ensures Split(p + [c] + q, [c]) == Split(p, [c]) + Split(q, [c])
    decreases |p|, 0
  {
    CutAt(p, i);
    SplitConcat(p[i + 1..], c, q);
    SplitConcatStep(p, c, q, p[..i], p[i + 1..]);
  }

  lemma SplitConcatStep(p: string, c: char, q: string, p1: string, p2: string)
    requires c !in p1 && p == p1 + [c] + p2
    requires Split(p2 + [c] + q, [c]) == Split(p2, [c]) + Split(q, [c])
    ensures Split(p + [c] + q, [c]) == Split(p, [c]) + Split(q, [c])
  {
    SplitAround(p, c, p1, p2, q);
    AppendAssoc([p1], Split(p2, [c]), Split(q, [c]));
  }

  lemma AppendAssoc<T>(x: seq<T>, y: seq<T>, z: seq<T>)
    ensures x + (y + z) == (x + y) + z
  {
  }

  lemma CutAt(p: string, i: nat)
    requires i < |p|
    ensures p == p[..i] + [p[i]] + p[i + 1..]
  {
  }

  lemma SplitConcatPlain(p: string, c: char, q: string)
    requires c !in p
    ensures Split(p + [c] + q, [c]) == Split(p, [c]) + Split(q, [c])
  {
    SplitWithout(p, c, 0);
    SplitCons(p, c, q);
  }

  /** A string holding a character has a first occurrence of it. */
  lemma FirstOccurrence(p: string, c: char) returns (i: nat)
    requires c in p
    ensures i < |p| && p[i] == c && c !in p[..i]
  {
    FindChar(p, c);
    i := Find(p, [c]);
  }

  lemma SplitAround(p: string, c: char, p1: string, p2: string, q: string)
    requires c !in p1 && p == p1 + [c] + p2
    ensures Split(p, [c]) == [p1] + Split(p2, [c])
    ensures Split(p + [c] + q, [c]) == [p1] + Split(p2 + [c] + q, [c])
  {
    SplitCons(p1, c, p2);
    Regroup(p, c, p1, p2, q);
    SplitCons(p1, c, p2 + [c] + q);
  }

  lemma Regroup(p: string, c: char, p1: string, p2: string, q: string)
    requires p == p1 + [c] + p2
    ensures p + [c] + q == p1 + [c] + (p2 + [c] + q)
  {
  }

  /** Joining pieces that do not hold the separator character and splitting again gives the pieces back. */
  lemma {:induction false} SplitJoin(parts: seq<string>, c: char)
    requires parts != [] && forall k :: 0 <= k < |parts| ==> c !in parts[k]
    ensures Split(Join(parts, [c]), [c]) == parts
    decreases |parts|
  {
    if |parts| == 1 {
      SplitWithout(parts[0], c, 0);
    } else {
      JoinCons(parts[0], parts[1..], [c]);
      assert [parts[0]] + parts[1..] == parts;
      SplitCons(parts[0], c, Join(parts[1..], [c]));
      SplitJoin(parts[1..], c);
    }
  }

  /** Joining one more piece on the right. */
  lemma {:induction false} JoinSnoc(parts: seq<string>, p: string, sep: string)
    requires parts != []
    ensures Join(parts + [p], sep) == Join(parts, sep) + sep + p
    decreases |parts|
  {
    if |parts| == 1 {
      assert (parts + [p])[1..] == [p];
    } else {
      assert (parts + [p])[1..] == parts[1..] + [p];
      JoinSnoc(parts[1..], p, sep);
    }
  }

  /** A Python slice bound: negative counts from the end, then clamped to `[0, n]`. */
  function SliceBound(i: int, n: nat): (r: nat)
    ensures r <= n
  {
    if i < 0 then (if i + n < 0 then 0 else i + n) else if i > n then n else i
  }

  /** `s[lo:hi]` with Python's treatment of negative and out-of-range bounds. */
  function Slice<T>(s: seq<T>, lo: int, hi: int): (r: seq<T>)
    ensures |r| <= |s|
  {
    var a, b := SliceBound(lo, |s|), SliceBound(hi, |s|);
    if a < b then s[a..b] else []
  }

  /** Lower-case for ASCII letters (`str.lower` beyond ASCII is not modelled). */
  function Lower(c: char): char {
    if 'A' <= c <= 'Z' then (c as int + 32) as char else c
  }

  /** Upper-case for ASCII letters. */
  function Upper(c: char): char {
    if 'a' <= c <= 'z' then (c as int - 32) as char else c
  }

  /** `s.lower()` on ASCII: no capital letter is left, every other character stays. */
  function LowerStr(s: string): (r: string)
    ensures |r| == |s| && forall k :: 0 <= k < |s| ==> r[k] == Lower(s[k])
    ensures forall k :: 0 <= k < |r| ==> !('A' <= r[k] <= 'Z')
    ensures forall k :: 0 <= k < |s| && !('A' <= s[k] <= 'Z') ==> r[k] == s[k]
    ensures forall k :: 0 <= k < |s| && 'A' <= s[k] <= 'Z' ==> 'a' <= r[k] <= 'z' && Upper(r[k]) == s[k]
  {
    seq(|s|, k requires 0 <= k < |s| => Lower(s[k]))
  }

  /** `s.encode('ascii', 'ignore')`: the characters below 128, in order. */
  function AsciiOnly(s: string): (r: string)
    ensures forall k :: 0 <= k < |r| ==> r[k] as int < 128
    ensures |r| <= |s|
  {
    if s == [] then []
    else (if s[0] as int < 128 then [s[0]] else []) + AsciiOnly(s[1..])
  }

  /** Dropping non-ASCII characters works piece by piece, so the kept characters keep their order. */
  lemma {:induction false} AsciiOnlyAppend(a: string, b: string)
    ensures AsciiOnly(a + b) == AsciiOnly(a) + AsciiOnly(b)
    decreases |a|
  {
    if a != [] {
      assert (a + b)[1..] == a[1..] + b;
      AsciiOnlyAppend(a[1..], b);
    } else {
      assert a + b == b;
    }
  }

  /** Text that is all ASCII is kept whole, and only such text is. */
  lemma {:induction false} AsciiOnlyKeepsAscii(s: string)
    ensures AsciiOnly(s) == s <==> forall k :: 0 <= k < |s| ==> s[k] as int < 128
    decreases |s|
  {
    if s != [] {
      AsciiOnlyKeepsAscii(s[1..]);
      if s[0] as int < 128 {
        assert forall k :: 1 <= k < |s| ==> s[k] == s[1..][k - 1];
        assert s == [s[0]] + s[1..];
      } else {
        assert |AsciiOnly(s)| < |s| by {
          assert AsciiOnly(s) == AsciiOnly(s[1..]);
        }
      }
    }
  }

  /** Lower-casing twice is lower-casing once. */
  lemma LowerStrIdempotent(s: string)
    ensures LowerStr(LowerStr(s)) == LowerStr(s)
  {
  }

  predicate IsDigit(c: char) {
    '0' <= c <= '9'
  }

  /** `s.isdigit()` over ASCII digits: non-empty and every character a digit. */
  predicate IsDigits(s: string) {
    |s| > 0 && forall k :: 0 <= k < |s| ==> IsDigit(s[k])
  }

  /** The value of a run of decimal digits. */
  function DecimalValue(s: string): nat
    requires forall k :: 0 <= k < |s| ==> IsDigit(s[k])
    decreases |s|
  {
    if s == [] then 0
    else
      assert IsDigit(s[|s| - 1]);
      10 * DecimalValue(s[..|s| - 1]) + (s[|s| - 1] as int - '0' as int)
  }

  /**
   * `int(s)` for text: surrounding whitespace, an optional sign and at least
   * one decimal digit; anything else is the ValueError, here None.
   */
  function ParseInt(s: string): Option<int> {
    var t := Strip(s);
    if |t| > 0 && (t[0] == '-' || t[0] == '+') && IsDigits(t[1..]) then
      var v: int := DecimalValue(t[1..]);
      Some(if t[0] == '-' then -v else v)
    else if IsDigits(t) then Some(DecimalValue(t))
    else None
  }

  /** `str(n)` for a natural number. */
  function NatToString(n: nat): (r: string)
    ensures IsDigits(r)
    decreases n
  {
    if n < 10 then [('0' as int + n) as char]
    else NatToString(n / 10) + [('0' as int + n % 10) as char]
  }

  /** `str(i)` for an integer. */
  function IntToString(i: int): (r: string)
    ensures r != [] && IsDigit(r[|r| - 1])
  {
    if i < 0 then "-" + NatToString(-i) else NatToString(i)
  }

  lemma {:induction false} DecimalOfNatToString(n: nat)
    ensures DecimalValue(NatToString(n)) == n
    decreases n
  {
    if n >= 10 {
      var prefix := NatToString(n / 10);
      var s := prefix + [('0' as int + n % 10) as char];
      assert s[..|s| - 1] == prefix;
      DecimalOfNatToString(n / 10);
    }
  }

  lemma NatToStringEdges(n: nat)
    ensures var t := NatToString(n); IsDigit(t[0]) && IsDigit(t[|t| - 1])
  {
  }

  /** `int(str(i)) == i`: printing an integer and parsing it back is the identity. */
  lemma ParseIntOfIntToString(i: int)
    ensures ParseInt(IntToString(i)) == Some(i)
  {
    var t := IntToString(i);
    var m: nat := if i < 0 then -i else i;
    var digits := NatToString(m);
    NatToStringEdges(m);
    DecimalOfNatToString(m);
    assert t == (if i < 0 then "-" + digits else digits);
    assert !IsSpace(t[0]) && !IsSpace(t[|t| - 1]);
    StripUnchanged(t);
    if i < 0 {
      assert t[1..] == digits;
    } else {
      assert t[0] != '-' && t[0] != '+';
    }
  }
}
