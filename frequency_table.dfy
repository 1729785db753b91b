/**
  The frequency tables of the word collection: the character table, the word table
  that the trackers read, and the case folding applied to words before counting.
 */
module FrequencyTable {

  /**
    The word table `Dictionary<string, int>`. It is one object: the word collection
    writes it and every registered tracker holds a reference to it and only reads it.
   */
  class WordTable {
    var counts: map<string, int>

    constructor ()
      ensures counts == map[]
    {
      counts := map[];
    }
  }

  /** `TryGetValue` with its default: the count stored for `k`, or 0 when `k` is absent. */
  function Lookup<K>(m: map<K, int>, k: K): int
  {
    if k in m then m[k] else 0
  }

  /** One more occurrence of `k`: `m[k] += 1` when present, `m[k] = 1` otherwise. */
  function Bump<K(!new)>(m: map<K, int>, k: K): (r: map<K, int>)
    ensures r.Keys == m.Keys + {k}
    ensures Lookup(r, k) == Lookup(m, k) + 1
    ensures forall j :: j != k ==> Lookup(r, j) == Lookup(m, j)
  {
    m[k := Lookup(m, k) + 1]
  }

  /** Every stored count is at least one: keys only enter a table by being counted. */
  ghost predicate AllPositive<K>(m: map<K, int>)
  {
    forall k :: k in m ==> m[k] >= 1
  }

  /** The sum of the counts of a table. */
  ghost function Total<K>(m: map<K, int>): int
    decreases |m|
  {
    if m == map[] then 0
    else
      var k :| k in m;
      m[k] + Total(m - {k})
  }

  /** The sum does not depend on which key is taken out first. */
  lemma {:induction false} TotalPick<K>(m: map<K, int>, k: K)
    requires k in m
    ensures Total(m) == m[k] + Total(m - {k})
    decreases |m|
  {
    var j :| j in m && Total(m) == m[j] + Total(m - {j});
    if j != k {
      var mj, mk := m - {j}, m - {k};
      TotalPick(mj, k);
      TotalPick(mk, j);
      assert mj - {k} == mk - {j};
    }
  }

  lemma TotalBump<K(!new)>(m: map<K, int>, k: K)
    ensures Total(Bump(m, k)) == Total(m) + 1
  {
    var r := Bump(m, k);
    TotalPick(r, k);
    if k in m {
      TotalPick(m, k);
      assert r - {k} == m - {k};
    } else {
      assert r - {k} == m;
    }
  }

  lemma BumpPositive<K(!new)>(m: map<K, int>, k: K)
    requires AllPositive(m)
    ensures AllPositive(Bump(m, k))
  {
  }

  /** The number of occurrences of `c` in `s`. */
  function Occurrences(s: string, c: char): (n: nat)
    ensures n <= |s|
  {
    if s == [] then 0
    else Occurrences(s[..|s| - 1], c) + (if s[|s| - 1] == c then 1 else 0)
  }

  /** The character table after counting every character of `s`, in order. */
  function AddChars(m: map<char, int>, s: string): map<char, int>
  {
    if s == [] then m
    else Bump(AddChars(m, s[..|s| - 1]), s[|s| - 1])
  }

  /** Counting `s` adds to each character's count exactly its occurrences in `s`. */
  lemma {:induction false} AddCharsCounts(m: map<char, int>, s: string)
    ensures forall c :: Lookup(AddChars(m, s), c) == Lookup(m, c) + Occurrences(s, c)
  {
    if s != [] {
      AddCharsCounts(m, s[..|s| - 1]);
    }
  }

  /** Counting `s` adds `|s|` to the total: the invariant `num_chars == sum of counts`. */
  lemma {:induction false} AddCharsTotal(m: map<char, int>, s: string)
    ensures Total(AddChars(m, s)) == Total(m) + |s|
  {
    if s != [] {
      AddCharsTotal(m, s[..|s| - 1]);
      TotalBump(AddChars(m, s[..|s| - 1]), s[|s| - 1]);
    }
  }

  lemma {:induction false} AddCharsPositive(m: map<char, int>, s: string)
    requires AllPositive(m)
    ensures AllPositive(AddChars(m, s))
  {
    if s != [] {
      AddCharsPositive(m, s[..|s| - 1]);
    }
  }

  /** Counting two strings one after the other is counting their concatenation. */
  lemma {:induction false} AddCharsAppend(m: map<char, int>, s: string, t: string)
    ensures AddChars(m, s + t) == AddChars(AddChars(m, s), t)
  {
    if t != [] {
      var t' := t[..|t| - 1];
      assert (s + t)[..|s + t| - 1] == s + t';
      AddCharsAppend(m, s, t');
    } else {
      assert s + t == s;
    }
  }

  /** Lowercasing of one character (ASCII letters; other characters are kept). */
  function LowerChar(c: char): char
  {
    if 'A' <= c <= 'Z' then (c as int - 'A' as int + 'a' as int) as char else c
  }

  /** `ToLower()`, character by character. */
  function Lower(s: string): (r: string)
    ensures |r| == |s|
    ensures forall i :: 0 <= i < |s| ==> r[i] == LowerChar(s[i])
  {
    if s == [] then [] else [LowerChar(s[0])] + Lower(s[1..])
  }

  lemma LowerIdempotent(s: string)
    ensures Lower(Lower(s)) == Lower(s)
  {
  }

  /** The key under which a word is counted: lowercased unless case is significant. */
  function WordKey(ignoreCase: bool, w: string): string
  {
    if ignoreCase then Lower(w) else w
  }

  /** The word table after counting `words` one by one, each under its key. */
  function Table(counts: map<string, int>, ignoreCase: bool, words: seq<string>): (r: map<string, int>)
  {
    if words == [] then counts
    else Bump(Table(counts, ignoreCase, words[..|words| - 1]), WordKey(ignoreCase, words[|words| - 1]))
  }

  /** Counting one word more. */
  lemma TableNext(counts: map<string, int>, ignoreCase: bool, ws: seq<string>, w: string)
    ensures Table(counts, ignoreCase, ws + [w]) == Bump(Table(counts, ignoreCase, ws), WordKey(ignoreCase, w))
  {
    assert (ws + [w])[..|ws + [w]| - 1] == ws;
  }

  /** Counting `words` adds `|words|` to the total: the invariant `num_words == sum of counts`. */
  lemma {:induction false} TableTotal(counts: map<string, int>, ignoreCase: bool, words: seq<string>)
    ensures Total(Table(counts, ignoreCase, words)) == Total(counts) + |words|
  {
    if words != [] {
      var init := words[..|words| - 1];
      TableTotal(counts, ignoreCase, init);
      TotalBump(Table(counts, ignoreCase, init), WordKey(ignoreCase, words[|words| - 1]));
    }
  }

  lemma {:induction false} TablePositive(counts: map<string, int>, ignoreCase: bool, words: seq<string>)
    requires AllPositive(counts)
    ensures AllPositive(Table(counts, ignoreCase, words))
  {
    if words != [] {
      TablePositive(counts, ignoreCase, words[..|words| - 1]);
    }
  }

  lemma {:induction false} TableAppend(counts: map<string, int>, ignoreCase: bool, ws: seq<string>, vs: seq<string>)
    ensures Table(counts, ignoreCase, ws + vs) == Table(Table(counts, ignoreCase, ws), ignoreCase, vs)
  {
    if vs == [] {
      assert ws + vs == ws;
    } else {
      var vs' := vs[..|vs| - 1];
      assert (ws + vs)[..|ws + vs| - 1] == ws + vs';
      TableAppend(counts, ignoreCase, ws, vs');
    }
  }
}
