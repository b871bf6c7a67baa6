/**
 `Array.from(set).sort()` on strings: JavaScript's default sort compares
 strings character code by character code, a proper prefix sorting first.
 The set's elements come out strictly ascending, so each appears once.
 */
module JsSort {

  /** The default string order of `Array.prototype.sort`. */
  predicate Less(a: string, b: string)
    ensures a < b ==> Less(a, b)
    ensures Less(a, b) ==> b != []
  {
    if a == [] then b != []
    else b != [] && (a[0] < b[0] || (a[0] == b[0] && Less(a[1..], b[1..])))
  }

  lemma {:induction false} LessIrreflexive(a: string)
    ensures !Less(a, a)
  {
    if a != [] {
      LessIrreflexive(a[1..]);
    }
  }

  lemma {:induction false} LessTransitive(a: string, b: string, c: string)
    requires Less(a, b) && Less(b, c)
    ensures Less(a, c)
  {
    if a != [] && a[0] == b[0] && b[0] == c[0] {
      LessTransitive(a[1..], b[1..], c[1..]);
    }
  }

  lemma {:induction false} LessTotal(a: string, b: string)
    ensures a == b || Less(a, b) || Less(b, a)
  {
    if a != [] && b != [] && a[0] == b[0] {
      LessTotal(a[1..], b[1..]);
      if a[1..] == b[1..] {
        assert a == [a[0]] + a[1..] && b == [b[0]] + b[1..];
      }
    }
  }

  lemma LessAsymmetric(a: string, b: string)
    requires Less(a, b)
    ensures !Less(b, a)
  {
    if Less(b, a) {
      LessTransitive(a, b, a);
      LessIrreflexive(a);
    }
  }

  /** Strictly ascending: sorted and free of duplicates. */
  predicate StrictlySorted(s: seq<string>) {
    forall i, j | 0 <= i < j < |s| :: Less(s[i], s[j])
  }

  function Elements(s: seq<string>): set<string> {
    set x | x in s
  }

  /** A value below the head of a strictly sorted sequence is below all of it. */
  lemma PrependSorted(x: string, s: seq<string>)
    requires StrictlySorted(s) && s != [] && Less(x, s[0])
    ensures StrictlySorted([x] + s)
  {
    forall j | 0 < j < |s| ensures Less(x, s[j]) {
      LessTransitive(x, s[0], s[j]);
    }
  }

  /** The head of a strictly sorted sequence stays below the tail with a larger value added. */
  lemma InsertStep(s: seq<string>, x: string, t: seq<string>)
    requires StrictlySorted(s) && s != [] && Less(s[0], x)
    requires StrictlySorted(t) && Elements(t) == Elements(s[1..]) + {x}
    ensures StrictlySorted([s[0]] + t)
  {
    forall j | 0 <= j < |t| ensures Less(s[0], t[j]) {
      assert t[j] in Elements(t);
      if t[j] != x {
        assert t[j] in s[1..];
        var i :| 0 <= i < |s| - 1 && s[1..][i] == t[j];
        assert s[i + 1] == t[j];
      }
    }
  }

  /** Inserts `x` at its place in a strictly sorted sequence that lacks it. */
  function Insert(s: seq<string>, x: string): (r: seq<string>)
    requires StrictlySorted(s) && x !in s
    ensures StrictlySorted(r) && Elements(r) == Elements(s) + {x}
  {
    if s == [] then [x]
    else if Less(x, s[0]) then
      PrependSorted(x, s);
      [x] + s
    else
      LessTotal(x, s[0]);
      var t := Insert(s[1..], x);
      InsertStep(s, x, t);
      assert Elements(s) == {s[0]} + Elements(s[1..]);
      [s[0]] + t
  }

  /** The sorted listing of a finite set of strings. */
  ghost function Sorted(s: set<string>): (r: seq<string>)
    ensures StrictlySorted(r) && Elements(r) == s
  {
    if s == {} then []
    else
      var x :| x in s;
      Insert(Sorted(s - {x}), x)
  }

  /** A set has only one strictly sorted listing: the output of the sort does
      not depend on the order the set was filled in. */
  lemma {:induction false} SortedUnique(a: seq<string>, b: seq<string>)
    requires StrictlySorted(a) && StrictlySorted(b) && Elements(a) == Elements(b)
    ensures a == b
  {
    assert b != [] ==> b[0] in Elements(b);
    if a != [] {
      assert a[0] in Elements(b);
      assert b != [] && b[0] in Elements(a);
      if a[0] != b[0] {
        assert Less(b[0], a[0]) && Less(a[0], b[0]);
        LessAsymmetric(a[0], b[0]);
      }
      assert a[0] !in a[1..] by { if a[0] in a[1..] { LessIrreflexive(a[0]); } }
      assert b[0] !in b[1..] by { if b[0] in b[1..] { LessIrreflexive(b[0]); } }
      assert Elements(a) == {a[0]} + Elements(a[1..]);
      assert Elements(b) == {b[0]} + Elements(b[1..]);
      SortedUnique(a[1..], b[1..]);
      assert a == [a[0]] + a[1..] && b == [b[0]] + b[1..];
    }
  }

  /** `Array.from(set).sort()`: an insertion sort over the set's elements. */
  method SortSet(s: set<string>) returns (r: seq<string>)
    ensures r == Sorted(s)
    ensures StrictlySorted(r) && Elements(r) == s
  {
    r := [];
    var rest := s;
    while rest != {}
      invariant StrictlySorted(r)
      invariant Elements(r) !! rest && Elements(r) + rest == s
      decreases rest
    {
      var x :| x in rest;
      r := Insert(r, x);
      rest := rest - {x};
    }
    SortedUnique(r, Sorted(s));
  }
}
