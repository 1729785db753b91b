/**
  The shortest-words tracker (`FindSmall`).

  It looks at a word only on its first occurrence (its count in the shared word
  table is exactly 1) and keeps at most `maxWords` words in buckets keyed by length
  (`SortedDictionary<int, SortedSet<string>>`). Once full, a new word displaces the
  greatest word of the longest bucket only when it is strictly shorter.
 */
module Shortest {
  import opened Ordering
  import opened FrequencyTable

  type Buckets = map<nat, set<string>>

  /** The tracker's fields `num_words` and `words_sorted`. */
  datatype SmallState = SmallState(numWords: int, buckets: Buckets)

  /** A new or cleared tracker. */
  const Empty := SmallState(0, map[])

  /** `w` is held by the tracker: it sits in the bucket of its length. */
  predicate Retains(b: Buckets, w: string)
  {
    |w| in b && w in b[|w|]
  }

  /** No bucket is empty and every word sits in the bucket of its own length. */
  ghost predicate WellBucketed(b: Buckets)
  {
    && (forall k :: k in b ==> b[k] != {})
    && (forall k, w :: k in b && w in b[k] ==> |w| == k)
  }

  /** The number of words per bucket. */
  ghost function Sizes(b: Buckets): map<nat, int>
  {
    map k | k in b :: |b[k]|
  }

  /** The number of words held across all buckets. */
  ghost function Count(b: Buckets): int
  {
    Total(Sizes(b))
  }

  /**
    The tracker invariant. The counter counts the words that went into the buckets
    and bounds how many they hold; it equals that number as long as no word is fed
    twice (see `UpdateCounts`).
   */
  ghost predicate Inv(st: SmallState, maxWords: int)
  {
    && 1 <= maxWords
    && WellBucketed(st.buckets)
    && Count(st.buckets) <= st.numWords <= maxWords
    && (st.numWords > 0 ==> st.buckets != map[])
  }

  /** Adds `w` to the bucket of its length, creating the bucket when absent. */
  function AddTo(b: Buckets, w: string): (r: Buckets)
  {
    if |w| in b then b[|w| := b[|w|] + {w}] else b[|w| := {w}]
  }

  /** Removes the greatest word of bucket `k`, dropping the bucket when that word was its last. */
  function DropGreatest(b: Buckets, k: nat): (r: Buckets)
    requires k in b && b[k] != {}
  {
    if |b[k]| <= 1 then b - {k} else b[k := b[k] - {GreatestWord(b[k])}]
  }

  lemma AddToCount(b: Buckets, w: string)
    requires !Retains(b, w)
    ensures Count(AddTo(b, w)) == Count(b) + 1
  {
    var sr, sb := Sizes(AddTo(b, w)), Sizes(b);
    assert sr == Bump(sb, |w|);
    TotalBump<nat>(sb, |w|);
  }

  lemma AddToFacts(b: Buckets, w: string)
    requires WellBucketed(b)
    ensures WellBucketed(AddTo(b, w)) && AddTo(b, w) != map[]
    ensures forall x :: Retains(AddTo(b, w), x) <==> Retains(b, x) || x == w
    ensures Count(AddTo(b, w)) == if Retains(b, w) then Count(b) else Count(b) + 1
  {
    if Retains(b, w) {
      assert b[|w|] + {w} == b[|w|];
      assert AddTo(b, w) == b;
    } else {
      AddToCount(b, w);
    }
  }

  lemma DropGreatestCount(b: Buckets, k: nat)
    requires k in b && b[k] != {}
    ensures Count(DropGreatest(b, k)) == Count(b) - 1
  {
    var sb := Sizes(b);
    var sr := Sizes(DropGreatest(b, k));
    TotalPick<nat>(sb, k);
    if |b[k]| <= 1 {
      assert sr == sb - {k};
    } else {
      assert sr == sb[k := |b[k]| - 1];
      TotalPick<nat>(sr, k);
      assert sr - {k} == sb - {k};
    }
  }

  lemma DropGreatestFacts(b: Buckets, k: nat)
    requires WellBucketed(b) && k in b
    ensures var g := GreatestWord(b[k]);
      && WellBucketed(DropGreatest(b, k))
      && DropGreatest(b, k).Keys <= b.Keys
      && (forall x :: Retains(DropGreatest(b, k), x) <==> Retains(b, x) && x != g)
      && Count(DropGreatest(b, k)) == Count(b) - 1
  {
    var g := GreatestWord(b[k]);
    if |b[k]| <= 1 {
      assert |b[k] - {g}| == 0;
      assert b[k] == {g};
    }
    DropGreatestCount(b, k);
  }

  /** `UpdateWords(word)`. */
  function Update(st: SmallState, maxWords: int, word: string): (r: SmallState)
    requires Inv(st, maxWords)
    ensures Inv(r, maxWords)
  {
    if st.numWords < maxWords then
      AddToFacts(st.buckets, word);
      SmallState(st.numWords + 1, AddTo(st.buckets, word))
    else
      var lastLen := MaxOf(st.buckets.Keys);
      if |word| < lastLen then
        DropGreatestFacts(st.buckets, lastLen);
        AddToFacts(DropGreatest(st.buckets, lastLen), word);
        SmallState(st.numWords, AddTo(DropGreatest(st.buckets, lastLen), word))
      else
        st
  }

  /** `AddWord(word)`: only a word whose count in the shared table is exactly 1 is considered. */
  function Feed(st: SmallState, maxWords: int, counts: map<string, int>, word: string): (r: SmallState)
    requires Inv(st, maxWords)
    ensures Inv(r, maxWords)
    ensures !(word in counts && counts[word] == 1) ==> r == st
  {
    if word in counts && counts[word] == 1 then Update(st, maxWords, word) else st
  }

  /** The counter stays equal to the number of held words when the word is not yet held. */
  lemma UpdateCounts(st: SmallState, maxWords: int, word: string)
    requires Inv(st, maxWords) && st.numWords == Count(st.buckets) && !Retains(st.buckets, word)
    ensures var r := Update(st, maxWords, word);
      r.numWords == Count(r.buckets) <= maxWords
  {
    var b := st.buckets;
    if st.numWords < maxWords {
      AddToFacts(b, word);
    } else {
      var lastLen := MaxOf(b.Keys);
      if |word| < lastLen {
        DropGreatestFacts(b, lastLen);
        AddToFacts(DropGreatest(b, lastLen), word);
      }
    }
  }

  /**
    The counter is exact on the shared table `counts`: it equals the number of held
    words, and every held word is a key of the table.
   */
  ghost predicate Exact(st: SmallState, counts: map<string, int>)
  {
    && st.numWords == Count(st.buckets)
    && (forall w :: Retains(st.buckets, w) ==> w in counts)
  }

  /**
    The collection counts a word into the shared table before the tracker's
    `AddWord` sees it, so a word passes the gate `count == 1` only on its first
    occurrence, when it cannot be held yet: the counter stays exact.
   */
  lemma FeedCounts(st: SmallState, maxWords: int, counts: map<string, int>, word: string)
    requires Inv(st, maxWords) && Exact(st, counts) && AllPositive(counts)
    ensures Exact(Feed(st, maxWords, Bump(counts, word), word), Bump(counts, word))
  {
    if word !in counts {
      assert !Retains(st.buckets, word);
      UpdateCounts(st, maxWords, word);
      if st.numWords < maxWords {
        UpdateInsert(st, maxWords, word);
      } else {
        UpdateFull(st, maxWords, word);
      }
    }
  }

  /** While there is room, the word joins the held words and the counter grows by one. */
  lemma UpdateInsert(st: SmallState, maxWords: int, word: string)
    requires Inv(st, maxWords) && st.numWords < maxWords
    ensures var r := Update(st, maxWords, word);
      && r.numWords == st.numWords + 1
      && (forall x :: Retains(r.buckets, x) <==> Retains(st.buckets, x) || x == word)
  {
    AddToFacts(st.buckets, word);
  }

  /**
    With the tracker full and `L` the longest bucket length: when the word is strictly
    shorter than `L`, the greatest word of bucket `L` is dropped and the word added;
    otherwise nothing changes.
   */
  lemma UpdateFull(st: SmallState, maxWords: int, word: string)
    requires Inv(st, maxWords) && st.numWords == maxWords
    ensures var r := Update(st, maxWords, word);
      var L := MaxOf(st.buckets.Keys);
      var g := GreatestWord(st.buckets[L]);
      && (forall k :: k in st.buckets ==> k <= L)
      && (forall x :: x in st.buckets[L] && x != g ==> StrLess(x, g))
      && r.numWords == maxWords
      && (|word| < L <==> r != st)
      && (|word| < L ==> forall x :: Retains(r.buckets, x) <==> (Retains(st.buckets, x) && x != g) || x == word)
  {
    var b := st.buckets;
    var L := MaxOf(b.Keys);
    var g := GreatestWord(b[L]);
    if |word| < L {
      DropGreatestFacts(b, L);
      AddToFacts(DropGreatest(b, L), word);
      assert Retains(b, g);
      assert |g| == L;
    }
  }

  /** Once full, the longest retained length never increases. */
  lemma UpdateKeepsMaximum(st: SmallState, maxWords: int, word: string)
    requires Inv(st, maxWords) && st.numWords == maxWords
    ensures var r := Update(st, maxWords, word);
      r.numWords == maxWords && r.buckets != map[] && MaxOf(r.buckets.Keys) <= MaxOf(st.buckets.Keys)
  {
    var b := st.buckets;
    var L := MaxOf(b.Keys);
    if |word| < L {
      DropGreatestFacts(b, L);
      var d := DropGreatest(b, L);
      var r := AddTo(d, word);
      assert r.Keys <= b.Keys + {|word|};
    }
  }

  /**
    Once full, whatever is left out (the dropped word or the rejected one) is no
    shorter than anything retained: the buckets hold the shortest words seen.
   */
  lemma UpdateKeepsShortest(st: SmallState, maxWords: int, word: string)
    requires Inv(st, maxWords) && st.numWords == maxWords
    ensures var r := Update(st, maxWords, word);
      forall x, y :: (Retains(st.buckets, x) || x == word) && !Retains(r.buckets, x) && Retains(r.buckets, y)
        ==> |y| <= |x|
  {
    var b := st.buckets;
    var r := Update(st, maxWords, word);
    var L := MaxOf(b.Keys);
    UpdateFull(st, maxWords, word);
    forall x, y | (Retains(b, x) || x == word) && !Retains(r.buckets, x) && Retains(r.buckets, y)
      ensures |y| <= |x|
    {
      if |word| < L {
        assert x == GreatestWord(b[L]);
        assert |x| == L;
        assert y == word || Retains(b, y);
      } else {
        assert x == word;
        assert Retains(b, y);
      }
    }
  }

  class FindSmall {
    var numWords: int
    const maxWords: int
    var wordFrequencies: WordTable?
    var wordsSorted: Buckets

    function State(): SmallState
      reads this
    {
      SmallState(numWords, wordsSorted)
    }

    ghost predicate Valid()
      reads this
    {
      Inv(State(), maxWords)
    }

    constructor (maxWords: int)
      requires maxWords >= 1
      ensures Valid() && State() == Empty
      ensures this.maxWords == maxWords && wordFrequencies == null
    {
      this.maxWords := maxWords;
      numWords := 0;
      wordFrequencies := null;
      wordsSorted := map[];
    }

    /** Binds the tracker to the shared word table. */
    method SetWordDict(wordDict: WordTable)
      modifies this
      ensures wordFrequencies == wordDict && State() == old(State())
    {
      wordFrequencies := wordDict;
    }

    /** Every held word, mapped to the key of its bucket (its length). */
    method GetWords() returns (outDict: map<string, int>)
      requires Valid()
      ensures forall w :: w in outDict <==> Retains(wordsSorted, w)
      ensures forall w :: w in outDict ==> outDict[w] == |w|
    {
      var sorted := wordsSorted;
      assert WellBucketed(sorted);
      outDict := map[];
      var keys := sorted.Keys;
      ghost var done: set<nat> := {};
      while keys != {}
        invariant forall k :: k in sorted <==> k in keys || k in done
        invariant forall k :: k in keys ==> k !in done
        invariant forall w :: w in outDict <==> Retains(sorted, w) && |w| in done
        invariant forall w :: w in outDict ==> outDict[w] == |w|
        decreases |keys|
      {
        var curKey :| curKey in keys;
        var curData := sorted[curKey];
        assert forall w :: w in curData <==> Retains(sorted, w) && |w| == curKey;
        outDict := AddBucket(outDict, curKey, curData);
        keys := keys - {curKey};
        done := done + {curKey};
      }
    }

    /** The inner loop of `GetWords`: maps every word of one bucket to the bucket's key. */
    static method AddBucket(outDict: map<string, int>, curKey: nat, curData: set<string>) returns (r: map<string, int>)
      ensures forall w :: w in r <==> w in outDict || w in curData
      ensures forall w :: w in r ==> r[w] == if w in curData then curKey else outDict[w]
    {
      r := outDict;
      var rest := curData;
      while rest != {}
        invariant forall w :: w in rest ==> w in curData
        invariant forall w :: w in r <==> w in outDict || (w in curData && w !in rest)
        invariant forall w :: w in r ==> r[w] == if w in curData && w !in rest then curKey else outDict[w]
        decreases |rest|
      {
        var curWord :| curWord in rest;
        r := r[curWord := curKey];
        rest := rest - {curWord};
      }
    }

    method AddWord(wordIn: string)
      requires Valid() && wordFrequencies != null
      modifies this
      ensures Valid() && wordFrequencies == old(wordFrequencies)
      ensures State() == Feed(old(State()), maxWords, wordFrequencies.counts, wordIn)
    {
      if wordIn in wordFrequencies.counts {
        var inFrequency := wordFrequencies.counts[wordIn];
        if inFrequency == 1 {
          UpdateWords(wordIn);
        }
      }
    }

    /** Empties the tracker, as the word collection's `ClearData` expects of every tracker. */
    method ClearData()
      requires Valid()
      modifies this
      ensures Valid() && State() == Empty && wordFrequencies == old(wordFrequencies)
    {
      numWords := 0;
      wordsSorted := map[];
    }

    /** Adds while there is room, otherwise trades the greatest of the longest words for a shorter one. */
    method UpdateWords(wordIn: string)
      requires Valid()
      modifies this
      ensures Valid() && wordFrequencies == old(wordFrequencies)
      ensures State() == Update(old(State()), maxWords, wordIn)
    {
      ghost var st := State();
      var wordLen := |wordIn|;
      if numWords < maxWords {
        numWords := numWords + 1;
        if wordLen in wordsSorted {
          wordsSorted := wordsSorted[wordLen := wordsSorted[wordLen] + {wordIn}];
        } else {
          wordsSorted := wordsSorted[wordLen := {wordIn}];
        }
        assert State() == SmallState(st.numWords + 1, AddTo(st.buckets, wordIn)) == Update(st, maxWords, wordIn);
      } else {
        var lastLen := MaxOf(wordsSorted.Keys);
        if wordLen < lastLen {
          var lastSet := wordsSorted[lastLen];
          if |lastSet| <= 1 {
            wordsSorted := wordsSorted - {lastLen};
          } else {
            wordsSorted := wordsSorted[lastLen := lastSet - {GreatestWord(lastSet)}];
          }
          assert wordsSorted == DropGreatest(st.buckets, lastLen);
          if wordLen in wordsSorted {
            wordsSorted := wordsSorted[wordLen := wordsSorted[wordLen] + {wordIn}];
          } else {
            wordsSorted := wordsSorted[wordLen := {wordIn}];
          }
          assert State() == SmallState(st.numWords, AddTo(DropGreatest(st.buckets, lastLen), wordIn))
            == Update(st, maxWords, wordIn);
        }
      }
    }
  }
}
