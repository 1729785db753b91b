/**
  Orders used by the ranked containers of the word statistics.

  The trackers keep `SortedSet<(int, string)>` values, ordered lexicographically on
  (metric, word), and `SortedSet<string>` buckets. Strings are compared ordinally,
  character code by character code, with a proper prefix before its extensions.
 */
module Ordering {

  /** A ranked entry: (metric, word). */
  type Entry = (int, string)

  /** Ordinal lexicographic order on strings (strict). */
  predicate StrLess(a: string, b: string)
  {
    if |a| == 0 then |b| > 0
    else if |b| == 0 then false
    else if a[0] != b[0] then a[0] < b[0]
    else StrLess(a[1..], b[1..])
  }

  lemma {:induction false} StrLessIrreflexive(a: string)
    ensures !StrLess(a, a)
  {
    if |a| > 0 {
      StrLessIrreflexive(a[1..]);
    }
  }

  lemma {:induction false} StrLessTransitive(a: string, b: string, c: string)
    requires StrLess(a, b) && StrLess(b, c)
    ensures StrLess(a, c)
  {
    if |a| > 0 && |b| > 0 && |c| > 0 && a[0] == b[0] && b[0] == c[0] {
      StrLessTransitive(a[1..], b[1..], c[1..]);
    }
  }

  lemma {:induction false} StrLessTotal(a: string, b: string)
    requires a != b
    ensures StrLess(a, b) || StrLess(b, a)
  {
    if |a| > 0 && |b| > 0 && a[0] == b[0] {
      StrLessTotal(a[1..], b[1..]);
    }
  }

  lemma StrLessAsymmetric(a: string, b: string)
    requires StrLess(a, b)
    ensures !StrLess(b, a)
  {
    if StrLess(b, a) {
      StrLessTransitive(a, b, a);
      StrLessIrreflexive(a);
    }
  }

  /** The order of `SortedSet<(int, string)>`: by metric, then by word. */
  predicate EntryLess(x: Entry, y: Entry)
  {
    x.0 < y.0 || (x.0 == y.0 && StrLess(x.1, y.1))
  }

  lemma EntryLessIrreflexive(x: Entry)
    ensures !EntryLess(x, x)
  {
    StrLessIrreflexive(x.1);
  }

  lemma EntryLessTransitive(x: Entry, y: Entry, z: Entry)
    requires EntryLess(x, y) && EntryLess(y, z)
    ensures EntryLess(x, z)
  {
    if x.0 == y.0 == z.0 {
      StrLessTransitive(x.1, y.1, z.1);
    }
  }

  lemma EntryLessTotal(x: Entry, y: Entry)
    requires x != y
    ensures EntryLess(x, y) || EntryLess(y, x)
  {
    if x.0 == y.0 {
      StrLessTotal(x.1, y.1);
    }
  }

  lemma EntryLessAsymmetric(x: Entry, y: Entry)
    requires EntryLess(x, y)
    ensures !EntryLess(y, x)
  {
    if EntryLess(y, x) {
      EntryLessTransitive(x, y, x);
      EntryLessIrreflexive(x);
    }
  }

  /** `m` is the first element of `s` in the (metric, word) order. */
  predicate IsLeast(m: Entry, s: set<Entry>)
  {
    m in s && forall x :: x in s && x != m ==> EntryLess(m, x)
  }

  lemma {:induction false} LeastExists(s: set<Entry>)
    requires s != {}
    ensures exists m :: IsLeast(m, s)
    decreases |s|
  {
    var x :| x in s;
    if s - {x} == {} {
      assert s == {x};
      assert IsLeast(x, s);
    } else {
      LeastExists(s - {x});
      var m :| IsLeast(m, s - {x});
      if EntryLess(x, m) {
        forall y | y in s && y != x
          ensures EntryLess(x, y)
        {
          if y != m {
            EntryLessTransitive(x, m, y);
          }
        }
        assert IsLeast(x, s);
      } else {
        EntryLessTotal(x, m);
        assert IsLeast(m, s);
      }
    }
  }

  lemma LeastUnique(s: set<Entry>)
    ensures forall m1, m2 :: IsLeast(m1, s) && IsLeast(m2, s) ==> m1 == m2
  {
    forall m1, m2 | IsLeast(m1, s) && IsLeast(m2, s)
      ensures m1 == m2
    {
      if m1 != m2 {
        EntryLessAsymmetric(m1, m2);
      }
    }
  }

  /** `SortedSet.First()`: the least entry of a non-empty ranked set. */
  function Least(s: set<Entry>): (m: Entry)
    requires s != {}
    ensures IsLeast(m, s)
  {
    LeastExists(s);
    LeastUnique(s);
    var m :| IsLeast(m, s);
    m
  }

  /** Strictly ascending in the (metric, word) order: sorted and without repeats. */
  predicate StrictlyAscending(r: seq<Entry>)
  {
    forall i, j :: 0 <= i < j < |r| ==> EntryLess(r[i], r[j])
  }

  /** Strictly descending in the (metric, word) order. */
  predicate StrictlyDescending(r: seq<Entry>)
  {
    forall i, j :: 0 <= i < j < |r| ==> EntryLess(r[j], r[i])
  }

  /** Enumeration of a `SortedSet<(int, string)>`: its entries, in ascending order. */
  function Enumerate(s: set<Entry>): (r: seq<Entry>)
    ensures |r| == |s|
    ensures forall x :: x in r <==> x in s
    ensures StrictlyAscending(r)
    decreases |s|
  {
    if s == {} then []
    else
      var m := Least(s);
      [m] + Enumerate(s - {m})
  }

  /** `Reverse()` of a sequence. */
  function Reverse<T>(r: seq<T>): (q: seq<T>)
    ensures |q| == |r|
    ensures forall i :: 0 <= i < |r| ==> q[i] == r[|r| - 1 - i]
  {
    if r == [] then [] else Reverse(r[1..]) + [r[0]]
  }

  /** Reversing keeps the elements. */
  lemma ReverseMembers<T>(r: seq<T>)
    ensures forall x :: x in Reverse(r) <==> x in r
  {
    var q := Reverse(r);
    forall x | x in r
      ensures x in q
    {
      var i :| 0 <= i < |r| && r[i] == x;
      assert q[|r| - 1 - i] == x;
    }
  }

  lemma ReverseAscending(r: seq<Entry>)
    requires StrictlyAscending(r)
    ensures StrictlyDescending(Reverse(r))
  {
  }

  /** The entries of a sorted set in ascending order, or in descending order (`Reverse()`). */
  function Listing(sorted: set<Entry>, descending: bool): (r: seq<Entry>)
    ensures |r| == |sorted|
    ensures forall x :: x in r <==> x in sorted
    ensures if descending then StrictlyDescending(r) else StrictlyAscending(r)
  {
    var up := Enumerate(sorted);
    if descending then
      ReverseAscending(up);
      ReverseMembers(up);
      Reverse(up)
    else up
  }

  /** `g` is the last element of the string set `s` in ordinal order. */
  predicate IsGreatestWord(g: string, s: set<string>)
  {
    g in s && forall x :: x in s && x != g ==> StrLess(x, g)
  }

  lemma {:induction false} GreatestWordExists(s: set<string>)
    requires s != {}
    ensures exists g :: IsGreatestWord(g, s)
    decreases |s|
  {
    var x :| x in s;
    if s - {x} == {} {
      assert s == {x};
      assert IsGreatestWord(x, s);
    } else {
      GreatestWordExists(s - {x});
      var g :| IsGreatestWord(g, s - {x});
      if StrLess(g, x) {
        forall y | y in s && y != x
          ensures StrLess(y, x)
        {
          if y != g {
            StrLessTransitive(y, g, x);
          }
        }
        assert IsGreatestWord(x, s);
      } else {
        StrLessTotal(x, g);
        assert IsGreatestWord(g, s);
      }
    }
  }

  lemma GreatestWordUnique(s: set<string>)
    ensures forall g1, g2 :: IsGreatestWord(g1, s) && IsGreatestWord(g2, s) ==> g1 == g2
  {
    forall g1, g2 | IsGreatestWord(g1, s) && IsGreatestWord(g2, s)
      ensures g1 == g2
    {
      if g1 != g2 {
        StrLessAsymmetric(g1, g2);
      }
    }
  }

  /** `SortedSet<string>.Last()`: the greatest word of a non-empty set. */
  function GreatestWord(s: set<string>): (g: string)
    requires s != {}
    ensures IsGreatestWord(g, s)
  {
    GreatestWordExists(s);
    GreatestWordUnique(s);
    var g :| IsGreatestWord(g, s);
    g
  }

  /** `m` is the largest element of `s`. */
  predicate IsMaxOf(m: nat, s: set<nat>)
  {
    m in s && forall x :: x in s ==> x <= m
  }

  lemma {:induction false} MaxExists(s: set<nat>)
    requires s != {}
    ensures exists m :: IsMaxOf(m, s)
    decreases |s|
  {
    var k :| k in s;
    var rest := s - {k};
    if rest == {} {
      assert s == {k};
      assert IsMaxOf(k, s);
    } else {
      MaxExists(rest);
      var m :| IsMaxOf(m, rest);
      var top := if k <= m then m else k;
      forall x | x in s
        ensures x <= top
      {
        if x != k {
          assert x in rest;
        }
      }
      assert IsMaxOf(top, s);
    }
  }

  /** The largest of a non-empty set of lengths (`SortedDictionary.Last().Key`). */
  function MaxOf(s: set<nat>): (m: nat)
    requires s != {}
    ensures m in s && forall x :: x in s ==> x <= m
  {
    MaxExists(s);
    var m :| IsMaxOf(m, s);
    m
  }
}
