/**
  The word collection (`WordCollectionData`): character and word frequency tables
  with their counters, optional lowercase folding of words, and the set of
  registered trackers that every counted word is fanned out to.
 */
module WordCollection {
  import opened FrequencyTable
  import MostFrequent
  import Longest
  import Shortest

  /**
    A registered tracker. Two values are equal exactly when they wrap the same
    object, so a set of them is the identity set `HashSet<IWordStats>`.
   */
  datatype Stat =
    | Frequent(frequent: MostFrequent.FindFrequent)
    | Large(large: Longest.FindLarge)
    | Small(small: Shortest.FindSmall)

  /** The state of a tracker, of whichever kind. */
  datatype View =
    | FrequentView(frequentState: MostFrequent.FrequentState)
    | LargeView(largeState: Longest.LargeState)
    | SmallView(smallState: Shortest.SmallState)

  ghost predicate ViewInv(v: View, maxWords: int)
  {
    match v
    case FrequentView(st) => MostFrequent.Inv(st, maxWords)
    case LargeView(st) => Longest.Inv(st, maxWords)
    case SmallView(st) => Shortest.Inv(st, maxWords)
  }

  /** A tracker's `AddWord(word)`, as its kind defines it. */
  function FeedView(v: View, maxWords: int, counts: map<string, int>, word: string): (r: View)
    requires ViewInv(v, maxWords)
    ensures ViewInv(r, maxWords)
    ensures r.FrequentView? == v.FrequentView? && r.LargeView? == v.LargeView?
  {
    match v
    case FrequentView(st) => FrequentView(MostFrequent.Feed(st, maxWords, counts, word))
    case LargeView(st) => LargeView(Longest.Feed(st, maxWords, counts, word))
    case SmallView(st) => SmallView(Shortest.Feed(st, maxWords, counts, word))
  }

  /** A tracker's `ClearData()`. */
  function ClearView(v: View): (r: View)
  {
    match v
    case FrequentView(_) => FrequentView(MostFrequent.Empty)
    case LargeView(_) => LargeView(Longest.Empty)
    case SmallView(_) => SmallView(Shortest.Empty)
  }

  /**
    A tracker's state after the collection counted `words` one by one starting from
    the table `counts`: each word is fed, under its key, once the table holds it.
   */
  function FeedAll(v: View, maxWords: int, counts: map<string, int>, ignoreCase: bool, words: seq<string>): (r: View)
    requires ViewInv(v, maxWords)
    ensures ViewInv(r, maxWords)
  {
    if words == [] then v
    else
      var n := |words| - 1;
      FeedView(FeedAll(v, maxWords, counts, ignoreCase, words[..n]), maxWords,
               Table(counts, ignoreCase, words), WordKey(ignoreCase, words[n]))
  }

  /** Feeding two word lists one after the other is feeding their concatenation. */
  lemma {:induction false} FeedAllAppend(v: View, maxWords: int, counts: map<string, int>, ignoreCase: bool,
                                         ws: seq<string>, vs: seq<string>)
    requires ViewInv(v, maxWords)
    ensures FeedAll(v, maxWords, counts, ignoreCase, ws + vs)
         == FeedAll(FeedAll(v, maxWords, counts, ignoreCase, ws), maxWords, Table(counts, ignoreCase, ws), ignoreCase, vs)
  {
    if vs == [] {
      assert ws + vs == ws;
    } else {
      var n := |vs| - 1;
      assert (ws + vs)[..|ws + vs| - 1] == ws + vs[..n];
      assert (ws + vs)[|ws + vs| - 1] == vs[n];
      FeedAllAppend(v, maxWords, counts, ignoreCase, ws, vs[..n]);
      TableAppend(counts, ignoreCase, ws, vs);
    }
  }

  /** Feeding one more word feeds its key once the table has counted it. */
  lemma FeedAllNext(v: View, maxWords: int, counts: map<string, int>, ignoreCase: bool, ws: seq<string>, w: string)
    requires ViewInv(v, maxWords)
    ensures FeedAll(v, maxWords, counts, ignoreCase, ws + [w])
         == FeedView(FeedAll(v, maxWords, counts, ignoreCase, ws), maxWords,
                     Bump(Table(counts, ignoreCase, ws), WordKey(ignoreCase, w)), WordKey(ignoreCase, w))
  {
    assert (ws + [w])[..|ws|] == ws;
    TableNext(counts, ignoreCase, ws, w);
  }

  /** `FeedAllAppend` on a tracker state already fed the first list. */
  lemma FeedAllStep(v: View, mid: View, now: View, maxWords: int, counts: map<string, int>, midCounts: map<string, int>,
                    ignoreCase: bool, ws: seq<string>, vs: seq<string>)
    requires ViewInv(v, maxWords) && ViewInv(mid, maxWords)
    requires mid == FeedAll(v, maxWords, counts, ignoreCase, ws) && midCounts == Table(counts, ignoreCase, ws)
    requires now == FeedAll(mid, maxWords, midCounts, ignoreCase, vs)
    ensures now == FeedAll(v, maxWords, counts, ignoreCase, ws + vs)
  {
    FeedAllAppend(v, maxWords, counts, ignoreCase, ws, vs);
  }

  /**
    A largest- or smallest-word tracker's counter is exact on the shared table
    `counts` (the most-frequent tracker's invariant already makes its counter exact).
   */
  ghost predicate ViewExact(v: View, counts: map<string, int>)
  {
    match v
    case FrequentView(_) => true
    case LargeView(st) => Longest.Exact(st, counts)
    case SmallView(st) => Shortest.Exact(st, counts)
  }

  /** `ClearData()` leaves trackers whose counters are exact on the emptied table. */
  lemma ClearViewExact(v: View)
    ensures ViewExact(ClearView(v), map[])
  {
  }

  /**
    Counting words through the collection keeps every tracker's counter exact: each
    word reaches the trackers only after the shared table has counted it.
   */
  lemma {:induction false} FeedAllExact(v: View, maxWords: int, counts: map<string, int>, ignoreCase: bool,
                                        words: seq<string>)
    requires ViewInv(v, maxWords) && ViewExact(v, counts) && AllPositive(counts)
    ensures ViewExact(FeedAll(v, maxWords, counts, ignoreCase, words), Table(counts, ignoreCase, words))
  {
    if words != [] {
      var n := |words| - 1;
      var mid := FeedAll(v, maxWords, counts, ignoreCase, words[..n]);
      var midCounts := Table(counts, ignoreCase, words[..n]);
      FeedAllExact(v, maxWords, counts, ignoreCase, words[..n]);
      TablePositive(counts, ignoreCase, words[..n]);
      TableNext(counts, ignoreCase, words[..n], words[n]);
      assert words[..n] + [words[n]] == words;
      var key := WordKey(ignoreCase, words[n]);
      match mid
      case FrequentView(_) =>
      case LargeView(st) => Longest.FeedCounts(st, maxWords, midCounts, key);
      case SmallView(st) => Shortest.FeedCounts(st, maxWords, midCounts, key);
    }
  }

  /** The tracker object a registration refers to. */
  function StatObj(s: Stat): object
  {
    match s
    case Frequent(f) => f
    case Large(l) => l
    case Small(m) => m
  }

  /** The word table a tracker is bound to. */
  function StatTable(s: Stat): WordTable?
    reads StatObj(s)
  {
    match s
    case Frequent(f) => f.wordFrequencies
    case Large(l) => l.wordFrequencies
    case Small(m) => m.wordFrequencies
  }

  function StatMax(s: Stat): int
  {
    match s
    case Frequent(f) => f.maxWords
    case Large(l) => l.maxWords
    case Small(m) => m.maxWords
  }

  function StatView(s: Stat): View
    reads StatObj(s)
  {
    match s
    case Frequent(f) => FrequentView(f.State())
    case Large(l) => LargeView(l.State())
    case Small(m) => SmallView(m.State())
  }

  ghost predicate StatValid(s: Stat)
    reads StatObj(s)
  {
    ViewInv(StatView(s), StatMax(s))
  }

  /** Distinct registrations refer to distinct tracker objects. */
  lemma StatObjInjective(s: Stat, t: Stat)
    requires StatObj(s) == StatObj(t)
    ensures s == t
  {
  }

  /** `word_stat.SetWordDict(ref frequency_word)`. */
  method StatSetWordDict(s: Stat, table: WordTable)
    modifies StatObj(s)
    ensures StatTable(s) == table && StatView(s) == old(StatView(s))
  {
    match s
    case Frequent(f) => f.SetWordDict(table);
    case Large(l) => l.SetWordDict(table);
    case Small(m) => m.SetWordDict(table);
  }

  /** `cur_stat.AddWord(word)`. */
  method StatAddWord(s: Stat, word: string)
    requires StatValid(s) && StatTable(s) != null
    modifies StatObj(s)
    ensures StatValid(s) && StatTable(s) == old(StatTable(s))
    ensures StatView(s) == FeedView(old(StatView(s)), StatMax(s), StatTable(s).counts, word)
  {
    match s
    case Frequent(f) => f.AddWord(word);
    case Large(l) => l.AddWord(word);
    case Small(m) => m.AddWord(word);
  }

  /** `cur_stat.ClearData()`. */
  method StatClearData(s: Stat)
    requires StatValid(s)
    modifies StatObj(s)
    ensures StatValid(s) && StatTable(s) == old(StatTable(s))
    ensures StatView(s) == ClearView(old(StatView(s)))
  {
    match s
    case Frequent(f) => f.ClearData();
    case Large(l) => l.ClearData();
    case Small(m) => m.ClearData();
  }

  class WordCollectionData {
    var numChars: int
    var numWords: int
    var ignoreWordCase: bool
    var frequencyChar: map<char, int>
    const frequencyWord: WordTable
    var statTypes: set<Stat>
    /** The tracker objects this collection may update: exactly the registered ones. */
    ghost var Repr: set<object>

    /**
      The counters are the sums of their tables, every stored count is positive,
      every registered tracker is bound to this collection's word table, and `Repr`
      holds the registered trackers' objects and nothing else.
     */
    ghost predicate Valid()
      reads this, frequencyWord, Repr
    {
      && numChars == Total(frequencyChar) && AllPositive(frequencyChar)
      && numWords == Total(frequencyWord.counts) && AllPositive(frequencyWord.counts)
      && this !in Repr && frequencyWord !in Repr
      && (forall s :: s in statTypes ==> StatObj(s) in Repr && StatTable(s) == frequencyWord && StatValid(s))
      && Registered()
    }

    /** `Repr` holds the registered trackers' objects and nothing else. */
    ghost predicate Registered()
      reads this
    {
      Repr == set s | s in statTypes :: StatObj(s)
    }

    constructor ()
      ensures Valid() && fresh(frequencyWord)
      ensures numChars == 0 && numWords == 0 && ignoreWordCase
      ensures frequencyChar == map[] && frequencyWord.counts == map[] && statTypes == {} && Repr == {}
    {
      numChars := 0;
      numWords := 0;
      ignoreWordCase := true;
      frequencyChar := map[];
      frequencyWord := new WordTable();
      statTypes := {};
      Repr := {};
    }

    /** Registers a tracker unless it is registered already, binding it to the word table. */
    method AddStat(wordStat: Stat) returns (added: bool)
      requires Valid() && StatValid(wordStat)
      modifies this, StatObj(wordStat)
      ensures Valid()
      ensures added <==> wordStat !in old(statTypes)
      ensures statTypes == old(statTypes) + {wordStat} && Repr == old(Repr) + {StatObj(wordStat)}
      ensures StatTable(wordStat) == frequencyWord && StatView(wordStat) == old(StatView(wordStat))
      ensures numChars == old(numChars) && numWords == old(numWords) && ignoreWordCase == old(ignoreWordCase)
      ensures frequencyChar == old(frequencyChar)
    {
      if wordStat !in statTypes {
        StatSetWordDict(wordStat, frequencyWord);
        forall s | s in statTypes
          ensures StatObj(s) != StatObj(wordStat)
        {
          if StatObj(s) == StatObj(wordStat) {
            StatObjInjective(s, wordStat);
          }
        }
        statTypes := statTypes + {wordStat};
        Repr := Repr + {StatObj(wordStat)};
        return true;
      }
      return false;
    }

    /** Unregisters a tracker; reports whether it was registered. */
    method RemoveStat(wordStat: Stat) returns (removed: bool)
      requires Valid()
      modifies this
      ensures Valid()
      ensures removed <==> wordStat in old(statTypes)
      ensures statTypes == old(statTypes) - {wordStat} && Repr == old(Repr) - {StatObj(wordStat)}
      ensures numChars == old(numChars) && numWords == old(numWords) && ignoreWordCase == old(ignoreWordCase)
      ensures frequencyChar == old(frequencyChar)
    {
      if wordStat in statTypes {
        forall s | s in statTypes && s != wordStat
          ensures StatObj(s) != StatObj(wordStat)
        {
          if StatObj(s) == StatObj(wordStat) {
            StatObjInjective(s, wordStat);
          }
        }
        statTypes := statTypes - {wordStat};
        Repr := Repr - {StatObj(wordStat)};
        return true;
      }
      return false;
    }

    /** Counts the characters of `inStr`. */
    method AddString(inStr: string)
      requires Valid()
      modifies this
      ensures Valid()
      ensures numChars == old(numChars) + |inStr|
      ensures frequencyChar == AddChars(old(frequencyChar), inStr)
      ensures forall c :: Lookup(frequencyChar, c) == Lookup(old(frequencyChar), c) + Occurrences(inStr, c)
      ensures numWords == old(numWords) && ignoreWordCase == old(ignoreWordCase)
      ensures statTypes == old(statTypes) && Repr == old(Repr)
    {
      numChars := numChars + |inStr|;
      var freq := frequencyChar;
      var i := 0;
      while i < |inStr|
        invariant 0 <= i <= |inStr|
        invariant freq == AddChars(old(frequencyChar), inStr[..i])
      {
        assert inStr[..i + 1][..i] == inStr[..i];
        freq := Bump(freq, inStr[i]);
        i := i + 1;
      }
      assert inStr[..i] == inStr;
      frequencyChar := freq;
      AddCharsTotal(old(frequencyChar), inStr);
      AddCharsPositive(old(frequencyChar), inStr);
      AddCharsCounts(old(frequencyChar), inStr);
    }

    /** Counts one word under its key and fans the key out to every registered tracker. */
    method AddWord(inWord: string)
      requires Valid()
      modifies this, frequencyWord, Repr
      ensures Valid() && Repr == old(Repr)
      ensures numWords == old(numWords) + 1
      ensures frequencyWord.counts == Bump(old(frequencyWord.counts), WordKey(ignoreWordCase, inWord))
      ensures Lookup(frequencyWord.counts, WordKey(ignoreWordCase, inWord)) >= 1
      ensures forall s :: s in old(statTypes) ==>
        StatView(s) == FeedView(old(StatView(s)), StatMax(s), frequencyWord.counts, WordKey(ignoreWordCase, inWord))
      ensures numChars == old(numChars) && frequencyChar == old(frequencyChar)
      ensures ignoreWordCase == old(ignoreWordCase) && statTypes == old(statTypes)
    {
      numWords := numWords + 1;
      var key := inWord;
      if ignoreWordCase {
        key := Lower(inWord);
      }
      TotalBump(frequencyWord.counts, key);
      BumpPositive(frequencyWord.counts, key);
      frequencyWord.counts := Bump(frequencyWord.counts, key);
      FanOut(key);
    }

    /** The loop of `AddWord` over the registered trackers. */
    method FanOut(key: string)
      requires Valid()
      modifies Repr
      ensures Valid()
      ensures forall s :: s in statTypes ==>
        StatView(s) == FeedView(old(StatView(s)), StatMax(s), frequencyWord.counts, key)
    {
      var todo := statTypes;
      while todo != {}
        invariant todo <= statTypes
        invariant forall s :: s in statTypes ==> StatTable(s) == frequencyWord && StatValid(s)
        invariant forall s :: s in statTypes && s !in todo ==>
          StatView(s) == FeedView(old(StatView(s)), StatMax(s), frequencyWord.counts, key)
        invariant forall s :: s in todo ==> StatView(s) == old(StatView(s))
        decreases |todo|
      {
        var curStat :| curStat in todo;
        StatAddWord(curStat, key);
        forall s | s in statTypes && s != curStat
          ensures StatObj(s) != StatObj(curStat)
        {
          if StatObj(s) == StatObj(curStat) {
            StatObjInjective(s, curStat);
          }
        }
        todo := todo - {curStat};
      }
    }

    /** `AddWord` on each word of the list, in order. */
    method AddWords(wordData: seq<string>)
      requires Valid()
      modifies this, frequencyWord, Repr
      ensures Valid() && Repr == old(Repr)
      ensures numWords == old(numWords) + |wordData|
      ensures frequencyWord.counts == Table(old(frequencyWord.counts), ignoreWordCase, wordData)
      ensures forall s :: s in old(statTypes) ==>
        StatView(s) == FeedAll(old(StatView(s)), StatMax(s), old(frequencyWord.counts), ignoreWordCase, wordData)
      ensures numChars == old(numChars) && frequencyChar == old(frequencyChar)
      ensures ignoreWordCase == old(ignoreWordCase) && statTypes == old(statTypes)
    {
      var i := 0;
      while i < |wordData|
        invariant 0 <= i <= |wordData|
        invariant Valid() && Repr == old(Repr)
        invariant numWords == old(numWords) + i
        invariant frequencyWord.counts == Table(old(frequencyWord.counts), ignoreWordCase, wordData[..i])
        invariant forall s :: s in old(statTypes) ==>
          StatView(s) == FeedAll(old(StatView(s)), StatMax(s), old(frequencyWord.counts), ignoreWordCase, wordData[..i])
        invariant numChars == old(numChars) && frequencyChar == old(frequencyChar)
        invariant ignoreWordCase == old(ignoreWordCase) && statTypes == old(statTypes)
      {
        assert wordData[..i + 1] == wordData[..i] + [wordData[i]];
        TableNext(old(frequencyWord.counts), ignoreWordCase, wordData[..i], wordData[i]);
        AddWord(wordData[i]);
        forall s | s in old(statTypes)
          ensures StatView(s)
            == FeedAll(old(StatView(s)), StatMax(s), old(frequencyWord.counts), ignoreWordCase, wordData[..i + 1])
        {
          FeedAllNext(old(StatView(s)), StatMax(s), old(frequencyWord.counts), ignoreWordCase, wordData[..i], wordData[i]);
        }
        i := i + 1;
      }
      assert wordData[..i] == wordData;
    }

    /** Zeroes the counters, empties both tables and clears every tracker; registrations stay. */
    method ClearData()
      requires Valid()
      modifies this, frequencyWord, Repr
      ensures Valid() && Repr == old(Repr)
      ensures numChars == 0 && numWords == 0 && frequencyChar == map[] && frequencyWord.counts == map[]
      ensures forall s :: s in old(statTypes) ==> StatView(s) == ClearView(old(StatView(s)))
      ensures ignoreWordCase == old(ignoreWordCase) && statTypes == old(statTypes)
    {
      numChars := 0;
      numWords := 0;
      frequencyChar := map[];
      frequencyWord.counts := map[];
      ClearStats();
    }

    /** The loop of `ClearData` over the registered trackers. */
    method ClearStats()
      requires Valid()
      modifies Repr
      ensures Valid()
      ensures forall s :: s in statTypes ==> StatView(s) == ClearView(old(StatView(s)))
    {
      var todo := statTypes;
      while todo != {}
        invariant todo <= statTypes
        invariant forall s :: s in statTypes ==> StatTable(s) == frequencyWord && StatValid(s)
        invariant forall s :: s in statTypes && s !in todo ==> StatView(s) == ClearView(old(StatView(s)))
        invariant forall s :: s in todo ==> StatView(s) == old(StatView(s))
        decreases |todo|
      {
        var curStat :| curStat in todo;
        StatClearData(curStat);
        forall s | s in statTypes && s != curStat
          ensures StatObj(s) != StatObj(curStat)
        {
          if StatObj(s) == StatObj(curStat) {
            StatObjInjective(s, curStat);
          }
        }
        todo := todo - {curStat};
      }
    }

    /** Whether words are folded to lowercase before counting. */
    method SetIgnoreWordCase(newVal: bool)
      requires Valid()
      modifies this
      ensures Valid() && Repr == old(Repr)
      ensures ignoreWordCase == newVal
      ensures numChars == old(numChars) && numWords == old(numWords)
      ensures frequencyChar == old(frequencyChar) && statTypes == old(statTypes)
    {
      ignoreWordCase := newVal;
    }

    function GetNumChars(): (n: int)
      reads this, frequencyWord, Repr
      requires Valid()
      ensures n == Total(frequencyChar)
    {
      numChars
    }

    function GetNumWords(): (n: int)
      reads this, frequencyWord, Repr
      requires Valid()
      ensures n == Total(frequencyWord.counts)
    {
      numWords
    }

    function GetCharFrequency(): (m: map<char, int>)
      reads this, frequencyWord, Repr
      requires Valid()
      ensures Total(m) == numChars && AllPositive(m)
    {
      frequencyChar
    }

    function GetWordFrequency(): (m: map<string, int>)
      reads this, frequencyWord, Repr
      requires Valid()
      ensures Total(m) == numWords && AllPositive(m)
    {
      frequencyWord.counts
    }
  }

  /** A new collection counts a word without touching any object that existed before. */
  method CountIntoNew(word: string) returns (c: WordCollectionData)
    ensures fresh(c) && c.Valid() && c.Repr == {}
    ensures c.numWords == 1 && c.frequencyWord.counts == map[Lower(word) := 1]
  {
    c := new WordCollectionData();
    c.AddWord(word);
  }

  /** A tracker removed from the collection is no longer fed by its `AddWord`. */
  method RemoveThenAdd(c: WordCollectionData, s: Stat, word: string)
    requires c.Valid()
    modifies c, c.frequencyWord, c.Repr
    ensures c.Valid() && s !in c.statTypes && StatObj(s) !in c.Repr
    ensures StatView(s) == old(StatView(s))
  {
    var removed := c.RemoveStat(s);
    c.AddWord(word);
  }
}
