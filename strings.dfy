/**
 * Character classes of Python 2's `re` (without the UNICODE flag) and the
 * ordering `sorted` uses on string keys.
 */
module Strings {

  /** `\w`: ASCII letters, digits and underscore. */
  predicate IsWordChar(c: char) {
    ('a' <= c <= 'z') || ('A' <= c <= 'Z') || ('0' <= c <= '9') || c == '_'
  }

  /** `[A-Z]`. */
  predicate IsUpper(c: char) {
    'A' <= c <= 'Z'
  }

  predicate IsWord(s: string) {
    forall i :: 0 <= i < |s| ==> IsWordChar(s[i])
  }

  /** Python's `<` on strings: lexicographic by code point, a proper prefix first. */
  predicate Below(a: string, b: string)
    decreases |a|
  {
    if a == [] then b != []
    else if b == [] then false
    else a[0] < b[0] || (a[0] == b[0] && Below(a[1..], b[1..]))
  }

  lemma {:induction false} BelowIrreflexive(a: string)
    ensures !Below(a, a)
    decreases |a|
  {
    if a != [] {
      BelowIrreflexive(a[1..]);
    }
  }

  lemma {:induction false} BelowAsymmetric(a: string, b: string)
    requires Below(a, b)
    ensures !Below(b, a)
    decreases |a|
  {
    if a != [] && b != [] && a[0] == b[0] {
      BelowAsymmetric(a[1..], b[1..]);
    }
  }

  lemma {:induction false} BelowTransitive(a: string, b: string, c: string)
    requires Below(a, b) && Below(b, c)
    ensures Below(a, c)
    decreases |a|
  {
    if a != [] && b != [] && c != [] && a[0] == b[0] && b[0] == c[0] {
      BelowTransitive(a[1..], b[1..], c[1..]);
    }
  }

  lemma {:induction false} BelowTotal(a: string, b: string)
    requires a != b
    ensures Below(a, b) || Below(b, a)
    decreases |a|
  {
    if a != [] && b != [] && a[0] == b[0] {
      assert a == [a[0]] + a[1..] && b == [b[0]] + b[1..];
      BelowTotal(a[1..], b[1..]);
    }
  }

  /** `m` comes first among `s` in `sorted` order. */
  predicate IsLeast(m: string, s: set<string>) {
    m in s && forall y :: y in s && y != m ==> Below(m, y)
  }

  lemma {:induction false} LeastExists(s: set<string>)
    requires s != {}
    ensures exists m :: IsLeast(m, s)
    decreases |s|
  {
    var x :| x in s;
    if s - {x} == {} {
      assert s == {x};
      assert IsLeast(x, s);
    } else {
      LeastExists(s - {x});
      var m :| IsLeast(m, s - {x});
      if Below(x, m) {
        forall y | y in s && y != x
          ensures Below(x, y)
        {
          if y != m { BelowTransitive(x, m, y); }
        }
        assert IsLeast(x, s);
      } else {
        BelowTotal(x, m);
        assert IsLeast(m, s);
      }
    }
  }

  lemma LeastUnique(m: string, n: string, s: set<string>)
    requires IsLeast(m, s) && IsLeast(n, s)
    ensures m == n
  {
    if m != n {
      BelowAsymmetric(m, n);
    }
  }

  predicate StrictlySorted(r: seq<string>) {
    forall i, j :: 0 <= i < j < |r| ==> Below(r[i], r[j])
  }

  /** The first of `s` in `sorted` order. */
  function Least(s: set<string>): (m: string)
    requires s != {}
    ensures IsLeast(m, s)
  {
    LeastExists(s);
    assert forall m, n :: IsLeast(m, s) && IsLeast(n, s) ==> m == n by {
      forall m, n | IsLeast(m, s) && IsLeast(n, s) ensures m == n { LeastUnique(m, n, s); }
    }
    var m :| IsLeast(m, s);
    m
  }

  /** The keys of a mapping in the order `sorted` yields them. */
  function SortedKeys(s: set<string>): (r: seq<string>)
    ensures |r| == |s|
    ensures forall x :: x in r <==> x in s
    ensures StrictlySorted(r)
    decreases |s|
  {
    if s == {} then []
    else
      var m := Least(s);
      var rest := SortedKeys(s - {m});
      LeastBeforeRest(m, s, rest);
      [m] + rest
  }

  lemma LeastBeforeRest(m: string, s: set<string>, rest: seq<string>)
    requires IsLeast(m, s)
    requires forall x :: x in rest <==> x in s - {m}
    requires StrictlySorted(rest)
    ensures StrictlySorted([m] + rest)
  {
    var r := [m] + rest;
    forall i, j | 0 <= i < j < |r| ensures Below(r[i], r[j]) {
      if i == 0 {
        assert r[j] == rest[j - 1] && rest[j - 1] in rest;
      } else {
        assert r[i] == rest[i - 1] && r[j] == rest[j - 1];
      }
    }
  }

  /** The head of a strictly sorted listing of `s` is its least element, and the tail lists the rest. */
  lemma SortedHead(r: seq<string>, s: set<string>)
    requires StrictlySorted(r) && r != []
    requires forall x :: x in r <==> x in s
    ensures s != {} && r[0] == Least(s) && StrictlySorted(r[1..])
    ensures forall x :: x in r[1..] <==> x in s - {r[0]}
  {
    assert r[0] in s;
    forall y | y in s && y != r[0] ensures Below(r[0], y) {
      var j :| 0 <= j < |r| && r[j] == y;
    }
    LeastUnique(r[0], Least(s), s);
    var tail := r[1..];
    forall i, j | 0 <= i < j < |tail| ensures Below(tail[i], tail[j]) {
      assert tail[i] == r[i + 1] && tail[j] == r[j + 1];
    }
    forall x ensures x in tail <==> x in s - {r[0]} {
      if x in tail {
        var j :| 0 <= j < |tail| && tail[j] == x;
        assert Below(r[0], r[j + 1]);
        if x == r[0] { BelowIrreflexive(x); }
      }
    }
  }

  /** `sorted` puts the least key first and sorts the rest after it. */
  lemma SortedKeysCons(m: string, s: set<string>)
    requires s != {} && m == Least(s)
    ensures SortedKeys(s) == [m] + SortedKeys(s - {m})
  {
  }

  /** Sorting is canonical: a strictly sorted listing of `s` is `SortedKeys(s)`. */
  lemma {:induction false} SortedKeysUnique(r: seq<string>, s: set<string>)
    requires StrictlySorted(r)
    requires forall x :: x in r <==> x in s
    ensures r == SortedKeys(s)
    decreases |r|
  {
    if r == [] {
      assert forall x :: x !in s;
    } else {
      SortedHead(r, s);
      var m := r[0];
      SortedKeysCons(m, s);
      SortedKeysUnique(r[1..], s - {m});
      assert r == [m] + r[1..];
    }
  }
}
