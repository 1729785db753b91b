/**
  The longest-words tracker (`FindLarge`).

  It looks at a word only on its first occurrence (its count in the shared word
  table is exactly 1) and keeps at most `maxWords` entries (length, word). Once full,
  a new word replaces the least entry only when it is strictly longer.
 */
module Longest {
  import opened Ordering
  import opened FrequencyTable

  /** The tracker's fields `num_words` and `words_sorted`. */
  datatype LargeState = LargeState(numWords: int, sorted: set<Entry>)

  /** A new or cleared tracker. */
  const Empty := LargeState(0, {})

  /**
    The tracker invariant. The counter counts the words that went into the set and
    bounds its size; it equals the size as long as no word is fed twice (see
    `UpdateCounts`). Every entry carries the length of its word.
   */
  ghost predicate Inv(st: LargeState, maxWords: int)
  {
    && 1 <= maxWords
    && |st.sorted| <= st.numWords <= maxWords
    && (st.numWords > 0 ==> st.sorted != {})
    && (forall e :: e in st.sorted ==> e.0 == |e.1|)
  }

  /** `UpdateWords(word)`. */
  function Update(st: LargeState, maxWords: int, word: string): (r: LargeState)
    requires Inv(st, maxWords)
    ensures Inv(r, maxWords)
  {
    if st.numWords < maxWords then
      LargeState(st.numWords + 1, st.sorted + {(|word|, word)})
    else
      var oldWord := Least(st.sorted);
      if |word| > oldWord.0 then
        LargeState(st.numWords, st.sorted - {oldWord} + {(|word|, word)})
      else
        st
  }

  /** `AddWord(word)`: only a word whose count in the shared table is exactly 1 is considered. */
  function Feed(st: LargeState, maxWords: int, counts: map<string, int>, word: string): (r: LargeState)
    requires Inv(st, maxWords)
    ensures Inv(r, maxWords)
    ensures !(word in counts && counts[word] == 1) ==> r == st
  {
    if word in counts && counts[word] == 1 then Update(st, maxWords, word) else st
  }

  /** The counter stays equal to the number of entries when the word is not yet retained. */
  lemma UpdateCounts(st: LargeState, maxWords: int, word: string)
    requires Inv(st, maxWords) && st.numWords == |st.sorted| && (|word|, word) !in st.sorted
    ensures var r := Update(st, maxWords, word);
      r.numWords == |r.sorted| <= maxWords
  {
    if st.numWords >= maxWords {
      var m := Least(st.sorted);
      assert (|word|, word) !in st.sorted - {m};
    }
  }

  /**
    The counter is exact on the shared table `counts`: it equals the number of
    entries, and every retained word is a key of the table.
   */
  ghost predicate Exact(st: LargeState, counts: map<string, int>)
  {
    && st.numWords == |st.sorted|
    && (forall e :: e in st.sorted ==> e.1 in counts)
  }

  /**
    The collection counts a word into the shared table before the tracker's
    `AddWord` sees it, so a word passes the gate `count == 1` only on its first
    occurrence, when it cannot be retained yet: the counter stays exact.
   */
  lemma FeedCounts(st: LargeState, maxWords: int, counts: map<string, int>, word: string)
    requires Inv(st, maxWords) && Exact(st, counts) && AllPositive(counts)
    ensures Exact(Feed(st, maxWords, Bump(counts, word), word), Bump(counts, word))
  {
    if word !in counts {
      assert (|word|, word) !in st.sorted;
      UpdateCounts(st, maxWords, word);
    }
  }

  /** While there is room, the word's entry is added and the counter grows by one. */
  lemma UpdateInsert(st: LargeState, maxWords: int, word: string)
    requires Inv(st, maxWords) && st.numWords < maxWords
    ensures var r := Update(st, maxWords, word);
      r.sorted == st.sorted + {(|word|, word)} && r.numWords == st.numWords + 1
  {
  }

  /**
    With the set full, the least entry is evicted and the word's entry added exactly
    when the word is strictly longer than the least entry; otherwise nothing changes.
   */
  lemma UpdateFull(st: LargeState, maxWords: int, word: string)
    requires Inv(st, maxWords) && st.numWords == maxWords
    ensures var r := Update(st, maxWords, word);
      var m := Least(st.sorted);
      && (forall e :: e in st.sorted && e != m ==> EntryLess(m, e))
      && r.numWords == maxWords
      && (|word| > m.0 <==> r != st)
      && (|word| > m.0 ==> st.sorted - r.sorted == {m} && r.sorted == st.sorted - {m} + {(|word|, word)})
  {
    var r := Update(st, maxWords, word);
    var m := Least(st.sorted);
    if |word| > m.0 {
      assert (|word|, word) != m;
    }
  }

  /** Once full, the least retained length never decreases. */
  lemma UpdateKeepsMinimum(st: LargeState, maxWords: int, word: string)
    requires Inv(st, maxWords) && st.numWords == maxWords
    ensures var r := Update(st, maxWords, word);
      r.numWords == maxWords && r.sorted != {} && Least(r.sorted).0 >= Least(st.sorted).0
  {
    var r := Update(st, maxWords, word);
    var m := Least(st.sorted);
    var m' := Least(r.sorted);
    if r != st {
      assert m' in st.sorted - {m} || m' == (|word|, word);
    }
  }

  /**
    Once full, whatever is left out (the evicted entry or the rejected word) is no
    longer than anything retained: the set holds the longest words seen.
   */
  lemma UpdateKeepsLongest(st: LargeState, maxWords: int, word: string)
    requires Inv(st, maxWords) && st.numWords == maxWords
    ensures var r := Update(st, maxWords, word);
      forall x, y :: x in st.sorted + {(|word|, word)} && x !in r.sorted && y in r.sorted ==> x.0 <= y.0
  {
    var r := Update(st, maxWords, word);
    var m := Least(st.sorted);
    forall x, y | x in st.sorted + {(|word|, word)} && x !in r.sorted && y in r.sorted
      ensures x.0 <= y.0
    {
      if r == st {
        assert x == (|word|, word);
      } else {
        assert x == m;
      }
    }
  }

  class FindLarge {
    var numWords: int
    const maxWords: int
    var wordFrequencies: WordTable?
    var wordsSorted: set<Entry>

    function State(): LargeState
      reads this
    {
      LargeState(numWords, wordsSorted)
    }

    ghost predicate Valid()
      reads this
    {
      Inv(State(), maxWords)
    }

    constructor (maxWords: int)
      requires maxWords >= 1
      ensures Valid() && State() == Empty
      ensures this.maxWords == maxWords && wordFrequencies == null
    {
      this.maxWords := maxWords;
      numWords := 0;
      wordFrequencies := null;
      wordsSorted := {};
    }

    /** Binds the tracker to the shared word table. */
    method SetWordDict(wordDict: WordTable)
      modifies this
      ensures wordFrequencies == wordDict && State() == old(State())
    {
      wordFrequencies := wordDict;
    }

    /** The retained entries, ascending by (length, word), or descending. */
    function GetWords(descending: bool): (r: seq<Entry>)
      reads this
      ensures |r| == |wordsSorted|
      ensures forall x :: x in r <==> x in wordsSorted
      ensures if descending then StrictlyDescending(r) else StrictlyAscending(r)
    {
      Listing(wordsSorted, descending)
    }

    method AddWord(wordIn: string)
      requires Valid() && wordFrequencies != null
      modifies this
      ensures Valid() && wordFrequencies == old(wordFrequencies)
      ensures State() == Feed(old(State()), maxWords, wordFrequencies.counts, wordIn)
    {
      if wordIn in wordFrequencies.counts {
        var inFrequency := wordFrequencies.counts[wordIn];
        if inFrequency == 1 {
          UpdateWords(wordIn);
        }
      }
    }

    method ClearData()
      requires Valid()
      modifies this
      ensures Valid() && State() == Empty && wordFrequencies == old(wordFrequencies)
    {
      numWords := 0;
      wordsSorted := {};
    }

    /** Inserts while there is room, otherwise replaces the least entry by a longer word. */
    method UpdateWords(wordIn: string)
      requires Valid()
      modifies this
      ensures Valid() && wordFrequencies == old(wordFrequencies)
      ensures State() == Update(old(State()), maxWords, wordIn)
    {
      var wordLen := |wordIn|;
      if numWords < maxWords {
        numWords := numWords + 1;
        wordsSorted := wordsSorted + {(wordLen, wordIn)};
      } else {
        var oldWord := Least(wordsSorted);
        if wordLen > oldWord.0 {
          wordsSorted := wordsSorted - {oldWord};
          wordsSorted := wordsSorted + {(wordLen, wordIn)};
        }
      }
    }
  }

  /** `GetWords(true)` is `GetWords(false)` reversed. */
  lemma GetWordsReversed(t: FindLarge)
    ensures t.GetWords(true) == Reverse(t.GetWords(false))
  {
  }
}
