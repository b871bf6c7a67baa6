/**
 The JavaScript string and array built-ins the route generator relies on,
 written out over `seq<char>`: `String.prototype.trim`, `split` on a single
 character, `Array.prototype.join` with a one-character separator, `map` and
 `filter`. Each carries the properties the generator's proofs need.
 */
module JsText {

  /** The code points `String.prototype.trim` removes: ECMAScript WhiteSpace
      (TAB, VT, FF, SP, NBSP, ZWNBSP and the other Zs space separators) and
      LineTerminator (LF, CR, LS, PS). */
  predicate IsWhitespace(c: char) {
    || c == '\t' || c == '\n' || c == '\U{000B}' || c == '\U{000C}' || c == '\r'
    || c == ' ' || c == '\U{00A0}' || c == '\U{1680}'
    || ('\U{2000}' <= c <= '\U{200A}')
    || c == '\U{2028}' || c == '\U{2029}' || c == '\U{202F}' || c == '\U{205F}'
    || c == '\U{3000}' || c == '\U{FEFF}'
  }

  /** Removes every leading character satisfying `drop` (the `^x+` regular-expression replacement). */
  function TrimLeft(s: string, drop: char -> bool): (r: string)
    ensures |r| <= |s|
    ensures r == s[|s| - |r|..]
    ensures r != [] ==> !drop(r[0])
  {
    if s == [] || !drop(s[0]) then s
    else TrimLeft(s[1..], drop)
  }

  /** Only characters satisfying `drop` are removed. */
  lemma {:induction false} TrimLeftDropsOnly(s: string, drop: char -> bool)
    ensures forall i | 0 <= i < |s| - |TrimLeft(s, drop)| :: drop(s[i])
  {
    if s != [] && drop(s[0]) {
      TrimLeftDropsOnly(s[1..], drop);
      assert forall i | 1 <= i < |s| - |TrimLeft(s, drop)| :: s[i] == s[1..][i - 1];
    }
  }

  /** When the first `k` characters satisfy `drop` and the next does not, exactly those `k` are removed. */
  lemma {:induction false} TrimLeftAfter(s: string, drop: char -> bool, k: nat)
    requires k <= |s| && (k == |s| || !drop(s[k]))
    requires forall i | 0 <= i < k :: drop(s[i])
    ensures TrimLeft(s, drop) == s[k..]
  {
    if k > 0 {
      TrimLeftAfter(s[1..], drop, k - 1);
      assert s[1..][k - 1..] == s[k..];
    }
  }

  /** Removes every trailing character satisfying `drop` (the `x+$` regular-expression replacement). */
  function TrimRight(s: string, drop: char -> bool): (r: string)
    ensures |r| <= |s| && r == s[..|r|]
    ensures r != [] ==> !drop(r[|r| - 1])
  {
    if s != [] && drop(s[|s| - 1]) then TrimRight(s[..|s| - 1], drop) else s
  }

  /** Only characters satisfying `drop` are removed. */
  lemma {:induction false} TrimRightDropsOnly(s: string, drop: char -> bool)
    ensures forall i | |TrimRight(s, drop)| <= i < |s| :: drop(s[i])
  {
    if s != [] && drop(s[|s| - 1]) {
      TrimRightDropsOnly(s[..|s| - 1], drop);
    }
  }

  /** When the characters from `k` on satisfy `drop` and the one before does not, exactly those are removed. */
  lemma {:induction false} TrimRightBefore(s: string, drop: char -> bool, k: nat)
    requires k <= |s| && (k == 0 || !drop(s[k - 1]))
    requires forall i | k <= i < |s| :: drop(s[i])
    ensures TrimRight(s, drop) == s[..k]
  {
    if k < |s| {
      TrimRightBefore(s[..|s| - 1], drop, k);
      assert s[..|s| - 1][..k] == s[..k];
    }
  }

  /** `String.prototype.trim`. */
  function Trim(s: string): (r: string)
    ensures |r| <= |s|
    ensures r != [] ==> !IsWhitespace(r[0]) && !IsWhitespace(r[|r| - 1])
  {
    TrimRight(TrimLeft(s, IsWhitespace), IsWhitespace)
  }

  /** The trim is one stretch `s[i..j]` of the input, and only whitespace lies outside it. */
  lemma TrimSlice(s: string) returns (i: nat, j: nat)
    ensures i <= j <= |s| && Trim(s) == s[i..j]
    ensures forall k | 0 <= k < i :: IsWhitespace(s[k])
    ensures forall k | j <= k < |s| :: IsWhitespace(s[k])
  {
    var left := TrimLeft(s, IsWhitespace);
    TrimLeftDropsOnly(s, IsWhitespace);
    TrimRightDropsOnly(left, IsWhitespace);
    i := |s| - |left|;
    j := i + |Trim(s)|;
    assert left == s[i..];
    assert Trim(s) == left[..|Trim(s)|];
    assert forall k | j <= k < |s| :: s[k] == left[k - i];
  }

  /** `trim` only removes characters: a character absent from `s` is absent from its trim. */
  lemma TrimKeepsOut(s: string, c: char)
    requires c !in s
    ensures c !in Trim(s)
  {
    var left := TrimLeft(s, IsWhitespace);
    assert c !in left by {
      assert left == s[|s| - |left|..];
    }
    var r := TrimRight(left, IsWhitespace);
    assert r == left[..|r|];
  }

  /** A string with no whitespace at either end is left alone by `trim`, so `trim` is idempotent. */
  lemma TrimFixedPoint(s: string)
    requires s != [] ==> !IsWhitespace(s[0]) && !IsWhitespace(s[|s| - 1])
    ensures Trim(s) == s
  {
  }

  lemma TrimIdempotent(s: string)
    ensures Trim(Trim(s)) == Trim(s)
  {
    TrimFixedPoint(Trim(s));
  }

  /** `String.prototype.split` with a one-character separator: always at least
      one piece, and no piece holds the separator. */
  function Split(s: string, sep: char): (r: seq<string>)
    ensures |r| >= 1
    ensures forall p | p in r :: sep !in p
  {
    if s == [] then [""]
    else
      var rest := Split(s[1..], sep);
      if s[0] == sep then [""] + rest
      else
        var r := [[s[0]] + rest[0]] + rest[1..];
        assert forall p | p in rest[1..] :: p in rest;
        r
  }

  /** Splitting never introduces a character, such as `/`, that the input lacks. */
  lemma {:induction false} SplitKeepsOut(s: string, sep: char, c: char)
    requires c !in s
    ensures forall p | p in Split(s, sep) :: c !in p
  {
    if s != [] {
      assert c !in s[1..] by {
        assert forall k | 0 <= k < |s[1..]| :: s[1..][k] == s[k + 1];
      }
      SplitKeepsOut(s[1..], sep, c);
      var rest := Split(s[1..], sep);
      if s[0] != sep {
        assert rest[0] in rest;
        assert forall p | p in rest[1..] :: p in rest;
      }
    }
  }

  /** Joining the pieces of a split gives back the input. */
  lemma {:induction false} JoinSplit(s: string, sep: char)
    ensures Join(Split(s, sep), sep) == s
  {
    if s != [] {
      JoinSplit(s[1..], sep);
      var rest := Split(s[1..], sep);
      if s[0] == sep {
        assert Join([""] + rest, sep) == [sep] + Join(rest, sep);
      } else {
        var r := [[s[0]] + rest[0]] + rest[1..];
        assert r[1..] == rest[1..];
      }
    }
  }

  /** `Array.prototype.join` with a one-character separator: no parts give the
      empty string, and the text starts with the first part. */
  function Join(parts: seq<string>, sep: char): (r: string)
    ensures parts == [] ==> r == []
    ensures |parts| >= 1 ==> parts[0] <= r
  {
    if |parts| == 0 then ""
    else if |parts| == 1 then parts[0]
    else parts[0] + [sep] + Join(parts[1..], sep)
  }

  /** `Array.prototype.map`. */
  function Map<A, B>(f: A -> B, s: seq<A>): (r: seq<B>)
    ensures |r| == |s| && forall i | 0 <= i < |s| :: r[i] == f(s[i])
  {
    if s == [] then [] else [f(s[0])] + Map(f, s[1..])
  }

  /** `a` can be obtained from `b` by deleting elements. */
  ghost predicate IsSubsequence<T>(a: seq<T>, b: seq<T>) {
    || a == []
    || (b != [] && ((a[0] == b[0] && IsSubsequence(a[1..], b[1..])) || IsSubsequence(a, b[1..])))
  }

  /** `Array.prototype.filter`: keeps exactly the elements satisfying `keep`, in their order. */
  function Filter(keep: string -> bool, s: seq<string>): (r: seq<string>)
    ensures forall x | x in r :: x in s && keep(x)
    ensures forall x | x in s && keep(x) :: x in r
  {
    if s == [] then []
    else if keep(s[0]) then [s[0]] + Filter(keep, s[1..])
    else Filter(keep, s[1..])
  }

  /** Filtering a concatenation filters each half: every accepted element is kept,
      as often as it occurs, in its place. */
  lemma {:induction false} FilterAppend(keep: string -> bool, a: seq<string>, b: seq<string>)
    ensures Filter(keep, a + b) == Filter(keep, a) + Filter(keep, b)
  {
    if a == [] {
      assert a + b == b;
    } else {
      assert (a + b)[1..] == a[1..] + b;
      FilterAppend(keep, a[1..], b);
    }
  }

  /** Filtering keeps each accepted element exactly as often as it occurs and
      drops every other element. */
  lemma {:induction false} FilterCount(keep: string -> bool, s: seq<string>, x: string)
    ensures multiset(Filter(keep, s))[x] == if keep(x) then multiset(s)[x] else 0
  {
    if s != [] {
      FilterCount(keep, s[1..], x);
      assert s == [s[0]] + s[1..];
      assert multiset(s) == multiset([s[0]]) + multiset(s[1..]);
    }
  }

  /** Filtering keeps the survivors in their order. */
  lemma {:induction false} FilterIsSubsequence(keep: string -> bool, s: seq<string>)
    ensures IsSubsequence(Filter(keep, s), s)
  {
    if s != [] {
      FilterIsSubsequence(keep, s[1..]);
      if keep(s[0]) {
        assert Filter(keep, s)[1..] == Filter(keep, s[1..]);
      }
    }
  }

  /** Filtering keeps everything when every element passes. */
  lemma {:induction false} FilterKeepsAll(keep: string -> bool, s: seq<string>)
    requires forall i | 0 <= i < |s| :: keep(s[i])
    ensures Filter(keep, s) == s
  {
    if s != [] {
      FilterKeepsAll(keep, s[1..]);
      assert s == [s[0]] + s[1..];
    }
  }

  lemma {:induction false} SubsequenceTransitive<T>(a: seq<T>, b: seq<T>, c: seq<T>)
    requires IsSubsequence(a, b) && IsSubsequence(b, c)
    ensures IsSubsequence(a, c)
    decreases |c|
  {
    if a != [] {
      if IsSubsequence(b, c[1..]) {
        SubsequenceTransitive(a, b, c[1..]);
      } else if a[0] == b[0] && IsSubsequence(a[1..], b[1..]) {
        SubsequenceTransitive(a[1..], b[1..], c[1..]);
      } else {
        SubsequenceTransitive(a, b[1..], c[1..]);
      }
    }
  }

  lemma {:induction false} SplitNoSeparator(s: string, sep: char)
    requires sep !in s
    ensures Split(s, sep) == [s]
  {
    if s != [] {
      SplitNoSeparator(s[1..], sep);
      assert [s[0]] + s[1..] == s;
    }
  }

  /** Splitting at the first separator. */
  lemma {:induction false} SplitAtFirst(a: string, b: string, sep: char)
    requires sep !in a
    ensures Split(a + [sep] + b, sep) == [a] + Split(b, sep)
  {
    if a != [] {
      assert (a + [sep] + b)[1..] == a[1..] + [sep] + b;
      assert [a[0]] + a[1..] == a;
      SplitAtFirst(a[1..], b, sep);
    } else {
      assert (a + [sep] + b)[1..] == b;
    }
  }

  /** Splitting undoes joining, when no part holds the separator. */
  lemma {:induction false} SplitJoin(parts: seq<string>, sep: char)
    requires |parts| >= 1
    requires forall p | p in parts :: sep !in p
    ensures Split(Join(parts, sep), sep) == parts
  {
    if |parts| == 1 {
      SplitNoSeparator(parts[0], sep);
    } else {
      SplitJoin(parts[1..], sep);
      SplitAtFirst(parts[0], Join(parts[1..], sep), sep);
    }
  }

  lemma {:induction false} JoinAppend(a: seq<string>, b: seq<string>, sep: char)
    requires |a| >= 1 && |b| >= 1
    ensures Join(a + b, sep) == Join(a, sep) + [sep] + Join(b, sep)
  {
    if |a| > 1 {
      assert (a + b)[1..] == a[1..] + b;
      JoinAppend(a[1..], b, sep);
    }
  }

  /** Joining three parts. */
  lemma JoinThree(x: string, y: string, z: string, sep: char)
    ensures Join([x, y, z], sep) == x + [sep] + (y + [sep] + z)
  {
    var parts := [x, y, z];
    assert parts[1..] == [y, z] && parts[1..][1..] == [z];
    assert Join(parts[1..], sep) == y + [sep] + z;
  }

  /** Joining non-empty parts that hold no separator neither starts nor ends with the separator. */
  lemma {:induction false} JoinEnds(parts: seq<string>, sep: char)
    requires |parts| >= 1 && forall p | p in parts :: p != [] && sep !in p
    ensures var j := Join(parts, sep); j != [] && j[0] != sep && j[|j| - 1] != sep
  {
    assert parts[0] in parts;
    if |parts| > 1 {
      assert forall p | p in parts[1..] :: p in parts;
      JoinEnds(parts[1..], sep);
    }
  }
}
