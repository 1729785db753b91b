/**
  The most-frequent-words tracker (`FindFrequent`).

  It keeps at most `maxWords` entries (frequency, word) in a ranked set, and a map
  from each tracked word to the frequency stored with it. A word that is already
  tracked has its entry refreshed to the word's current frequency; a new word is
  inserted while there is room, and once the set is full it only replaces the least
  entry, and only when its frequency is strictly greater than that entry's.
 */
module MostFrequent {
  import opened Ordering
  import opened FrequencyTable

  /** The tracker's fields `num_words`, `words_most_frequent` and `words_sorted`. */
  datatype FrequentState = FrequentState(numWords: int, mostFrequent: map<string, int>, sorted: set<Entry>)

  /** A new or cleared tracker. */
  const Empty := FrequentState(0, map[], {})

  /**
    The tracker invariant: the bound, the counter equal to both container sizes, and
    the map and the ranked set describing the same (word, frequency) pairs.
   */
  ghost predicate Inv(st: FrequentState, maxWords: int)
  {
    && 1 <= maxWords
    && 0 <= st.numWords <= maxWords
    && st.numWords == |st.sorted| == |st.mostFrequent|
    && (forall w :: w in st.mostFrequent ==> (st.mostFrequent[w], w) in st.sorted)
    && (forall e :: e in st.sorted ==> e.1 in st.mostFrequent && st.mostFrequent[e.1] == e.0)
  }

  /** `UpdateWords(word)` when the word table gives `curFreq` for `word`. */
  function Update(st: FrequentState, maxWords: int, word: string, curFreq: int): (r: FrequentState)
    requires Inv(st, maxWords)
    ensures Inv(r, maxWords)
  {
    if word in st.mostFrequent then
      RefreshInv(st, maxWords, word, curFreq);
      Refresh(st, word, curFreq)
    else if st.numWords < maxWords then
      InsertInv(st, maxWords, word, curFreq);
      Insert(st, word, curFreq)
    else
      var oldWord := Least(st.sorted);
      if curFreq > oldWord.0 then
        ReplaceInv(st, maxWords, word, curFreq, oldWord);
        Replace(st, word, curFreq, oldWord)
      else
        st
  }

  /** The entry of a tracked word moved to its new frequency. */
  function Refresh(st: FrequentState, word: string, curFreq: int): FrequentState
    requires word in st.mostFrequent
  {
    FrequentState(st.numWords, st.mostFrequent[word := curFreq],
                  st.sorted - {(st.mostFrequent[word], word)} + {(curFreq, word)})
  }

  /** A new entry added while there is room. */
  function Insert(st: FrequentState, word: string, curFreq: int): FrequentState
  {
    FrequentState(st.numWords + 1, st.mostFrequent[word := curFreq], st.sorted + {(curFreq, word)})
  }

  /** The entry `oldWord` evicted and a new entry added in its place. */
  function Replace(st: FrequentState, word: string, curFreq: int, oldWord: Entry): FrequentState
  {
    FrequentState(st.numWords, (st.mostFrequent - {oldWord.1})[word := curFreq],
                  st.sorted - {oldWord} + {(curFreq, word)})
  }

  lemma RefreshInv(st: FrequentState, maxWords: int, word: string, curFreq: int)
    requires Inv(st, maxWords) && word in st.mostFrequent
    ensures Inv(Refresh(st, word, curFreq), maxWords)
  {
    var o := st.mostFrequent[word];
    var r := Refresh(st, word, curFreq);
    assert (o, word) in st.sorted;
    assert (curFreq, word) !in st.sorted - {(o, word)};
    forall v | v in r.mostFrequent
      ensures (r.mostFrequent[v], v) in r.sorted
    {
      if v != word {
        assert (st.mostFrequent[v], v) in st.sorted;
      }
    }
    forall e | e in r.sorted
      ensures e.1 in r.mostFrequent && r.mostFrequent[e.1] == e.0
    {
      if e != (curFreq, word) {
        assert e in st.sorted;
      }
    }
  }

  lemma InsertInv(st: FrequentState, maxWords: int, word: string, curFreq: int)
    requires Inv(st, maxWords) && word !in st.mostFrequent && st.numWords < maxWords
    ensures Inv(Insert(st, word, curFreq), maxWords)
  {
    var r := Insert(st, word, curFreq);
    assert (curFreq, word) !in st.sorted;
    forall v | v in r.mostFrequent
      ensures (r.mostFrequent[v], v) in r.sorted
    {
      if v != word {
        assert (st.mostFrequent[v], v) in st.sorted;
      }
    }
    forall e | e in r.sorted
      ensures e.1 in r.mostFrequent && r.mostFrequent[e.1] == e.0
    {
      if e != (curFreq, word) {
        assert e in st.sorted;
      }
    }
  }

  lemma ReplaceInv(st: FrequentState, maxWords: int, word: string, curFreq: int, oldWord: Entry)
    requires Inv(st, maxWords) && word !in st.mostFrequent && oldWord in st.sorted
    ensures Inv(Replace(st, word, curFreq, oldWord), maxWords)
  {
    var r := Replace(st, word, curFreq, oldWord);
    assert oldWord.1 in st.mostFrequent && oldWord.1 != word;
    assert (curFreq, word) !in st.sorted - {oldWord};
    assert |st.mostFrequent - {oldWord.1}| == |st.mostFrequent| - 1;
    forall v | v in r.mostFrequent
      ensures (r.mostFrequent[v], v) in r.sorted
    {
      if v != word {
        assert (st.mostFrequent[v], v) in st.sorted;
      }
    }
    forall e | e in r.sorted
      ensures e.1 in r.mostFrequent && r.mostFrequent[e.1] == e.0
    {
      if e != (curFreq, word) {
        assert e in st.sorted;
      }
    }
  }

  /** `AddWord(word)`: the frequency is read from the shared table, 0 when absent. */
  function Feed(st: FrequentState, maxWords: int, counts: map<string, int>, word: string): (r: FrequentState)
    requires Inv(st, maxWords)
    ensures Inv(r, maxWords)
  {
    Update(st, maxWords, word, Lookup(counts, word))
  }

  /** A tracked word gets its entry refreshed; no other entry and no size changes. */
  lemma UpdateTracked(st: FrequentState, maxWords: int, word: string, curFreq: int)
    requires Inv(st, maxWords) && word in st.mostFrequent
    ensures var r := Update(st, maxWords, word, curFreq);
      && r.numWords == st.numWords && |r.sorted| == |st.sorted|
      && (curFreq, word) in r.sorted && r.mostFrequent[word] == curFreq
      && (forall e: Entry :: e.1 != word ==> (e in r.sorted <==> e in st.sorted))
      && (forall v :: v != word ==> (v in r.mostFrequent <==> v in st.mostFrequent))
      && (forall v :: v != word && v in r.mostFrequent ==> r.mostFrequent[v] == st.mostFrequent[v])
  {
  }

  /** An untracked word is inserted while there is room, and the size grows by one. */
  lemma UpdateInsert(st: FrequentState, maxWords: int, word: string, curFreq: int)
    requires Inv(st, maxWords) && word !in st.mostFrequent && st.numWords < maxWords
    ensures var r := Update(st, maxWords, word, curFreq);
      && r.sorted == st.sorted + {(curFreq, word)}
      && (curFreq, word) !in st.sorted
      && |r.sorted| == |st.sorted| + 1 && r.numWords == st.numWords + 1
      && r.mostFrequent == st.mostFrequent[word := curFreq]
  {
  }

  /**
    With the set full, an untracked word replaces exactly the least entry when its
    frequency is strictly greater than that entry's frequency; otherwise nothing changes.
   */
  lemma UpdateFull(st: FrequentState, maxWords: int, word: string, curFreq: int)
    requires Inv(st, maxWords) && word !in st.mostFrequent && st.numWords == maxWords
    ensures var r := Update(st, maxWords, word, curFreq);
      var m := Least(st.sorted);
      && (forall e :: e in st.sorted && e != m ==> EntryLess(m, e))
      && (curFreq > m.0 ==>
            && st.sorted - r.sorted == {m}
            && r.sorted - st.sorted == {(curFreq, word)}
            && m.1 !in r.mostFrequent && r.mostFrequent[word] == curFreq
            && |r.sorted| == |st.sorted|)
      && (curFreq <= m.0 ==> r == st)
  {
    var r := Update(st, maxWords, word, curFreq);
    var m := Least(st.sorted);
    if curFreq > m.0 {
      assert (curFreq, word) !in st.sorted;
      assert m.1 != word;
      assert st.sorted - r.sorted == {m};
    }
  }

  /** The pairs (word, frequency) of a ranked sequence, as `ToDictionary` lists them. */
  function Pairs(es: seq<Entry>): (r: seq<(string, int)>)
    ensures |r| == |es|
    ensures forall i :: 0 <= i < |es| ==> r[i] == (es[i].1, es[i].0)
  {
    if es == [] then [] else [(es[0].1, es[0].0)] + Pairs(es[1..])
  }

  /** `GetWords(descending)` on the ranked set. */
  function Ranking(sorted: set<Entry>, descending: bool): seq<(string, int)>
  {
    Pairs(Listing(sorted, descending))
  }

  /** The listed pairs are tracked words with their stored frequencies, each word once. */
  lemma PairsTracked(st: FrequentState, maxWords: int, es: seq<Entry>)
    requires Inv(st, maxWords)
    requires forall i :: 0 <= i < |es| ==> es[i] in st.sorted
    requires forall i, j :: 0 <= i < j < |es| ==> es[i] != es[j]
    ensures var r := Pairs(es);
      && (forall i :: 0 <= i < |r| ==> r[i].0 in st.mostFrequent && st.mostFrequent[r[i].0] == r[i].1)
      && (forall i, j :: 0 <= i < j < |r| ==> r[i].0 != r[j].0)
  {
    var r := Pairs(es);
    forall i, j | 0 <= i < j < |r|
      ensures r[i].0 != r[j].0
    {
      assert es[i] in st.sorted && es[j] in st.sorted;
    }
  }

  /** An ordered listing holds every entry once, and its pairs keep the order. */
  lemma PairsOrdered(es: seq<Entry>, descending: bool)
    requires if descending then StrictlyDescending(es) else StrictlyAscending(es)
    ensures forall i, j :: 0 <= i < j < |es| ==> es[i] != es[j]
    ensures var r := Pairs(es);
      forall i, j :: 0 <= i < j < |r| ==>
        if descending then EntryLess((r[j].1, r[j].0), (r[i].1, r[i].0))
        else EntryLess((r[i].1, r[i].0), (r[j].1, r[j].0))
  {
    var r := Pairs(es);
    forall i, j | 0 <= i < j < |es|
      ensures es[i] != es[j]
    {
      EntryLessIrreflexive(es[i]);
    }
    forall i, j | 0 <= i < j < |r|
      ensures if descending then EntryLess((r[j].1, r[j].0), (r[i].1, r[i].0))
        else EntryLess((r[i].1, r[i].0), (r[j].1, r[j].0))
    {
      assert (r[i].1, r[i].0) == es[i] && (r[j].1, r[j].0) == es[j];
    }
  }

  /** `GetWords(descending)` lists every tracked word once, with its frequency, in order. */
  lemma RankingFacts(st: FrequentState, maxWords: int, descending: bool)
    requires Inv(st, maxWords)
    ensures var r := Ranking(st.sorted, descending);
      && |r| == st.numWords
      && (forall i :: 0 <= i < |r| ==> r[i].0 in st.mostFrequent && st.mostFrequent[r[i].0] == r[i].1)
      && (forall i, j :: 0 <= i < j < |r| ==> r[i].0 != r[j].0)
      && (forall i, j :: 0 <= i < j < |r| ==>
            if descending then EntryLess((r[j].1, r[j].0), (r[i].1, r[i].0))
            else EntryLess((r[i].1, r[i].0), (r[j].1, r[j].0)))
  {
    var es := Listing(st.sorted, descending);
    assert Ranking(st.sorted, descending) == Pairs(es);
    PairsOrdered(es, descending);
    assert forall i :: 0 <= i < |es| ==> es[i] in st.sorted;
    PairsTracked(st, maxWords, es);
  }

  /** Swapping each entry into a pair commutes with reversing the listing. */
  lemma PairsReverse(es: seq<Entry>)
    ensures Pairs(Reverse(es)) == Reverse(Pairs(es))
  {
    var a, b := Pairs(Reverse(es)), Reverse(Pairs(es));
    forall i | 0 <= i < |a|
      ensures a[i] == b[i]
    {
      assert a[i] == (es[|es| - 1 - i].1, es[|es| - 1 - i].0);
    }
  }

  /** `GetWords(true)` lists the entries of `GetWords(false)` in the reverse order. */
  lemma RankingReversed(sorted: set<Entry>)
    ensures Ranking(sorted, true) == Reverse(Ranking(sorted, false))
  {
    var up := Listing(sorted, false);
    assert Listing(sorted, true) == Reverse(up);
    PairsReverse(up);
  }

  class FindFrequent {
    var numWords: int
    const maxWords: int
    var wordFrequencies: WordTable?
    var wordsMostFrequent: map<string, int>
    var wordsSorted: set<Entry>

    function State(): FrequentState
      reads this
    {
      FrequentState(numWords, wordsMostFrequent, wordsSorted)
    }

    ghost predicate Valid()
      reads this
    {
      Inv(State(), maxWords)
    }

    constructor (maxWords: int)
      requires maxWords >= 1
      ensures Valid() && State() == Empty
      ensures this.maxWords == maxWords && wordFrequencies == null
    {
      this.maxWords := maxWords;
      numWords := 0;
      wordFrequencies := null;
      wordsMostFrequent := map[];
      wordsSorted := {};
    }

    /** Binds the tracker to the shared word table. */
    method SetWordDict(wordDict: WordTable)
      modifies this
      ensures wordFrequencies == wordDict && State() == old(State())
    {
      wordFrequencies := wordDict;
    }

    /**
      The tracked words with their stored frequencies, ascending by (frequency, word),
      or descending when `descending` holds; each tracked word exactly once.
     */
    function GetWords(descending: bool): (r: seq<(string, int)>)
      reads this
      requires Valid()
      ensures |r| == numWords == |wordsMostFrequent|
      ensures forall i :: 0 <= i < |r| ==> r[i].0 in wordsMostFrequent && wordsMostFrequent[r[i].0] == r[i].1
      ensures forall i, j :: 0 <= i < j < |r| ==> r[i].0 != r[j].0
      ensures forall i, j :: 0 <= i < j < |r| ==>
        if descending then EntryLess((r[j].1, r[j].0), (r[i].1, r[i].0))
        else EntryLess((r[i].1, r[i].0), (r[j].1, r[j].0))
    {
      RankingFacts(State(), maxWords, descending);
      Ranking(wordsSorted, descending)
    }

    method AddWord(wordIn: string)
      requires Valid() && wordFrequencies != null
      modifies this
      ensures Valid() && wordFrequencies == old(wordFrequencies)
      ensures State() == Feed(old(State()), maxWords, wordFrequencies.counts, wordIn)
    {
      UpdateWords(wordIn);
    }

    method ClearData()
      requires Valid()
      modifies this
      ensures Valid() && State() == Empty && wordFrequencies == old(wordFrequencies)
    {
      numWords := 0;
      wordsMostFrequent := map[];
      wordsSorted := {};
    }

    /** Refreshes, inserts, or replaces the least entry, as `Update` states. */
    method UpdateWords(wordIn: string)
      requires Valid() && wordFrequencies != null
      modifies this
      ensures Valid() && wordFrequencies == old(wordFrequencies)
      ensures State() == Update(old(State()), maxWords, wordIn, Lookup(wordFrequencies.counts, wordIn))
    {
      ghost var st := State();
      var curFreq := Lookup(wordFrequencies.counts, wordIn);
      if wordIn in wordsMostFrequent {
        var oldFreq := wordsMostFrequent[wordIn];
        wordsSorted := wordsSorted - {(oldFreq, wordIn)};
        wordsSorted := wordsSorted + {(curFreq, wordIn)};
        wordsMostFrequent := wordsMostFrequent[wordIn := curFreq];
        assert State() == Refresh(st, wordIn, curFreq) == Update(st, maxWords, wordIn, curFreq);
      } else if numWords < maxWords {
        numWords := numWords + 1;
        wordsSorted := wordsSorted + {(curFreq, wordIn)};
        wordsMostFrequent := wordsMostFrequent[wordIn := curFreq];
        assert State() == Insert(st, wordIn, curFreq) == Update(st, maxWords, wordIn, curFreq);
      } else {
        var oldWord := Least(wordsSorted);
        if curFreq > oldWord.0 {
          wordsSorted := wordsSorted - {oldWord};
          wordsMostFrequent := wordsMostFrequent - {oldWord.1};
          wordsSorted := wordsSorted + {(curFreq, wordIn)};
          wordsMostFrequent := wordsMostFrequent[wordIn := curFreq];
          assert State() == Replace(st, wordIn, curFreq, oldWord) == Update(st, maxWords, wordIn, curFreq);
        }
      }
    }
  }
}
