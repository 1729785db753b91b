/**
  Concrete inputs to the trackers and to the word table, following the scenarios the
  repository's own unit tests exercise: the words are counted into the shared table
  one by one and each is handed to the tracker right after it was counted.
 */
module Scenarios {
  import opened Ordering
  import opened FrequencyTable
  import opened Tokenizer
  import MostFrequent
  import Longest
  import Shortest

  /**
    The ends of a listing: ascending, it starts with the least entry and ends with
    the greatest; descending, the other way round.
   */
  lemma ListingEnds(s: set<Entry>, first: Entry, last: Entry)
    requires IsLeast(first, s)
    requires last in s && (forall x :: x in s && x != last ==> EntryLess(x, last))
    ensures var up, down := Listing(s, false), Listing(s, true);
      && up[0] == first && up[|up| - 1] == last
      && down[0] == last && down[|down| - 1] == first
  {
    var up, down := Listing(s, false), Listing(s, true);
    var i :| 0 <= i < |up| && up[i] == first;
    NotBoth(up[0], first);
    var j :| 0 <= j < |up| && up[j] == last;
    NotBoth(last, up[|up| - 1]);
    var k :| 0 <= k < |down| && down[k] == last;
    NotBoth(last, down[0]);
    var l :| 0 <= l < |down| && down[l] == first;
    NotBoth(down[|down| - 1], first);
  }

  lemma NotBoth(x: Entry, y: Entry)
    ensures !(EntryLess(x, y) && EntryLess(y, x))
  {
    if EntryLess(x, y) {
      EntryLessAsymmetric(x, y);
    }
  }

  // The states of `FindFrequent(3)` after each word of "a", "b", "c", "d", "d", "c", "b", "b".
  const F1 := MostFrequent.FrequentState(1, map["a" := 1], {(1, "a")})
  const F2 := MostFrequent.FrequentState(2, map["a" := 1, "b" := 1], {(1, "a"), (1, "b")})
  const F3 := MostFrequent.FrequentState(3, map["a" := 1, "b" := 1, "c" := 1], {(1, "a"), (1, "b"), (1, "c")})
  const F5 := MostFrequent.FrequentState(3, map["b" := 1, "c" := 1, "d" := 2], {(1, "b"), (1, "c"), (2, "d")})
  const F6 := MostFrequent.FrequentState(3, map["b" := 1, "c" := 2, "d" := 2], {(1, "b"), (2, "c"), (2, "d")})
  const F7 := MostFrequent.FrequentState(3, map["b" := 2, "c" := 2, "d" := 2], {(2, "b"), (2, "c"), (2, "d")})
  const F8 := MostFrequent.FrequentState(3, map["b" := 3, "c" := 2, "d" := 2], {(2, "c"), (2, "d"), (3, "b")})

  /**
    `FindFrequent(3)` fed "a", "b", "c", "d", "d", "c", "b", "b", each after counting
    it. The first "d" does not beat the least entry (1, "a"); the second does and
    evicts it; the later words refresh their entries. Ascending, "c" comes first and
    "b" last; descending, the other way round.
   */
  lemma FrequentScenario()
    ensures
      var f1 := MostFrequent.Feed(MostFrequent.Empty, 3, map["a" := 1], "a");
      var f2 := MostFrequent.Feed(f1, 3, map["a" := 1, "b" := 1], "b");
      var f3 := MostFrequent.Feed(f2, 3, map["a" := 1, "b" := 1, "c" := 1], "c");
      var f4 := MostFrequent.Feed(f3, 3, map["a" := 1, "b" := 1, "c" := 1, "d" := 1], "d");
      var f5 := MostFrequent.Feed(f4, 3, map["a" := 1, "b" := 1, "c" := 1, "d" := 2], "d");
      var f6 := MostFrequent.Feed(f5, 3, map["a" := 1, "b" := 1, "c" := 2, "d" := 2], "c");
      var f7 := MostFrequent.Feed(f6, 3, map["a" := 1, "b" := 2, "c" := 2, "d" := 2], "b");
      var f8 := MostFrequent.Feed(f7, 3, map["a" := 1, "b" := 3, "c" := 2, "d" := 2], "b");
      var up, down := MostFrequent.Ranking(f8.sorted, false), MostFrequent.Ranking(f8.sorted, true);
      && f4 == f3
      && f8.sorted == {(2, "c"), (2, "d"), (3, "b")}
      && |up| == 3 && up[0].0 == "c" && up[2].0 == "b"
      && |down| == 3 && down[0].0 == "b" && down[2].0 == "c"
  {
    var f1 := MostFrequent.Feed(MostFrequent.Empty, 3, map["a" := 1], "a");
    assert f1 == F1;
    var f2 := MostFrequent.Feed(f1, 3, map["a" := 1, "b" := 1], "b");
    FrequentB(f1);
    var f3 := MostFrequent.Feed(f2, 3, map["a" := 1, "b" := 1, "c" := 1], "c");
    FrequentC(f2);
    FrequentD(f3);
    FrequentD2(f3);
    var f5 := MostFrequent.Feed(f3, 3, map["a" := 1, "b" := 1, "c" := 1, "d" := 2], "d");
    var f6 := MostFrequent.Feed(f5, 3, map["a" := 1, "b" := 1, "c" := 2, "d" := 2], "c");
    FrequentC2(f5);
    var f7 := MostFrequent.Feed(f6, 3, map["a" := 1, "b" := 2, "c" := 2, "d" := 2], "b");
    FrequentB2(f6);
    FrequentB3(f7);
    FrequentEnds();
  }

  lemma FrequentB(st: MostFrequent.FrequentState)
    requires st == F1 && MostFrequent.Inv(st, 3)
    ensures MostFrequent.Feed(st, 3, map["a" := 1, "b" := 1], "b") == F2
  {
    assert MostFrequent.Feed(st, 3, map["a" := 1, "b" := 1], "b") == MostFrequent.Insert(st, "b", 1);
  }

  lemma FrequentC(st: MostFrequent.FrequentState)
    requires st == F2 && MostFrequent.Inv(st, 3)
    ensures MostFrequent.Feed(st, 3, map["a" := 1, "b" := 1, "c" := 1], "c") == F3
  {
    assert MostFrequent.Feed(st, 3, map["a" := 1, "b" := 1, "c" := 1], "c") == MostFrequent.Insert(st, "c", 1);
    assert F2.sorted + {(1, "c")} == F3.sorted;
  }

  /** The least entry of the full tracker is (1, "a"). */
  lemma LeastOfF3()
    ensures Least(F3.sorted) == (1, "a")
  {
    assert StrLess("a", "b") && StrLess("a", "c");
    assert IsLeast((1, "a"), F3.sorted);
    LeastUnique(F3.sorted);
  }

  lemma RemoveFirst(x: string, y: string, z: string, i: int, j: int, k: int)
    requires x != y && x != z
    ensures map[x := i, y := j, z := k] - {x} == map[y := j, z := k]
  {
    var m := map[x := i, y := j, z := k] - {x};
    assert m.Keys == {y, z};
  }

  /** The first "d" only ties the least entry (1, "a") and is turned away. */
  lemma FrequentD(st: MostFrequent.FrequentState)
    requires st == F3 && MostFrequent.Inv(st, 3)
    ensures MostFrequent.Feed(st, 3, map["a" := 1, "b" := 1, "c" := 1, "d" := 1], "d") == F3
  {
    LeastOfF3();
  }

  /** The second "d" beats it and evicts it. */
  lemma FrequentD2(st: MostFrequent.FrequentState)
    requires st == F3 && MostFrequent.Inv(st, 3)
    ensures MostFrequent.Feed(st, 3, map["a" := 1, "b" := 1, "c" := 1, "d" := 2], "d") == F5
  {
    LeastOfF3();
    assert MostFrequent.Feed(st, 3, map["a" := 1, "b" := 1, "c" := 1, "d" := 2], "d")
        == MostFrequent.Replace(st, "d", 2, (1, "a"));
    EvictA();
  }

  lemma EvictA()
    ensures MostFrequent.Replace(F3, "d", 2, (1, "a")) == F5
  {
    RemoveFirst("a", "b", "c", 1, 1, 1);
    assert F3.sorted - {(1, "a")} + {(2, "d")} == F5.sorted;
  }

  lemma FrequentC2(st: MostFrequent.FrequentState)
    requires st == F5 && MostFrequent.Inv(st, 3)
    ensures MostFrequent.Feed(st, 3, map["a" := 1, "b" := 1, "c" := 2, "d" := 2], "c") == F6
  {
    assert MostFrequent.Feed(st, 3, map["a" := 1, "b" := 1, "c" := 2, "d" := 2], "c") == MostFrequent.Refresh(st, "c", 2);
    assert F5.sorted - {(1, "c")} + {(2, "c")} == F6.sorted;
    assert F5.mostFrequent["c" := 2] == F6.mostFrequent;
  }

  lemma FrequentB2(st: MostFrequent.FrequentState)
    requires st == F6 && MostFrequent.Inv(st, 3)
    ensures MostFrequent.Feed(st, 3, map["a" := 1, "b" := 2, "c" := 2, "d" := 2], "b") == F7
  {
    assert MostFrequent.Feed(st, 3, map["a" := 1, "b" := 2, "c" := 2, "d" := 2], "b") == MostFrequent.Refresh(st, "b", 2);
    assert F6.sorted - {(1, "b")} + {(2, "b")} == F7.sorted;
    assert F6.mostFrequent["b" := 2] == F7.mostFrequent;
  }

  lemma FrequentB3(st: MostFrequent.FrequentState)
    requires st == F7 && MostFrequent.Inv(st, 3)
    ensures MostFrequent.Feed(st, 3, map["a" := 1, "b" := 3, "c" := 2, "d" := 2], "b") == F8
  {
    assert MostFrequent.Feed(st, 3, map["a" := 1, "b" := 3, "c" := 2, "d" := 2], "b") == MostFrequent.Refresh(st, "b", 3);
    assert F7.sorted - {(2, "b")} + {(3, "b")} == F8.sorted;
    assert F7.mostFrequent["b" := 3] == F8.mostFrequent;
  }

  /** The rankings of the final set, in both directions. */
  lemma FrequentEnds()
    ensures var up, down := MostFrequent.Ranking(F8.sorted, false), MostFrequent.Ranking(F8.sorted, true);
      && |up| == 3 && up[0].0 == "c" && up[2].0 == "b"
      && |down| == 3 && down[0].0 == "b" && down[2].0 == "c"
  {
    var s := F8.sorted;
    assert |s| == 3;
    assert StrLess("c", "d");
    ListingEnds(s, (2, "c"), (3, "b"));
  }

  /**
    `FindLarge(3)` fed "123", "123", "1", "1", "2", "1234", each after counting it:
    the repeats are ignored, and "1234" evicts the least entry (1, "1"), leaving
    "2" first and "1234" last.
   */
  lemma LargeScenario()
    ensures
      var s1 := Longest.Feed(Longest.Empty, 3, map["123" := 1], "123");
      var s2 := Longest.Feed(s1, 3, map["123" := 2], "123");
      var s3 := Longest.Feed(s2, 3, map["123" := 2, "1" := 1], "1");
      var s4 := Longest.Feed(s3, 3, map["123" := 2, "1" := 2], "1");
      var s5 := Longest.Feed(s4, 3, map["123" := 2, "1" := 2, "2" := 1], "2");
      var s6 := Longest.Feed(s5, 3, map["123" := 2, "1" := 2, "2" := 1, "1234" := 1], "1234");
      var up, down := Listing(s6.sorted, false), Listing(s6.sorted, true);
      && s5.sorted == {(1, "1"), (1, "2"), (3, "123")}
      && s6 == Longest.LargeState(3, {(1, "2"), (3, "123"), (4, "1234")})
      && |up| == 3 && up[0].1 == "2" && up[2].1 == "1234"
      && |down| == 3 && down[0].1 == "1234" && down[2].1 == "2"
  {
    LargeFill();
    LargeEvict();
    LargeEnds();
  }

  /** The first five words: three first occurrences fill the tracker. */
  lemma LargeFill()
    ensures
      var s1 := Longest.Feed(Longest.Empty, 3, map["123" := 1], "123");
      var s2 := Longest.Feed(s1, 3, map["123" := 2], "123");
      var s3 := Longest.Feed(s2, 3, map["123" := 2, "1" := 1], "1");
      var s4 := Longest.Feed(s3, 3, map["123" := 2, "1" := 2], "1");
      Longest.Feed(s4, 3, map["123" := 2, "1" := 2, "2" := 1], "2")
        == Longest.LargeState(3, {(1, "1"), (1, "2"), (3, "123")})
  {
    var s1 := Longest.LargeState(1, {(3, "123")});
    assert Longest.Feed(Longest.Empty, 3, map["123" := 1], "123") == s1;
    var s3 := Longest.LargeState(2, {(1, "1"), (3, "123")});
    assert Longest.Feed(s1, 3, map["123" := 2, "1" := 1], "1") == s3;
  }

  /** The sixth word, "1234", evicts (1, "1"). */
  lemma LargeEvict()
    ensures
      Longest.Feed(Longest.LargeState(3, {(1, "1"), (1, "2"), (3, "123")}), 3,
                   map["123" := 2, "1" := 2, "2" := 1, "1234" := 1], "1234")
        == Longest.LargeState(3, {(1, "2"), (3, "123"), (4, "1234")})
  {
    var s5 := Longest.LargeState(3, {(1, "1"), (1, "2"), (3, "123")});
    assert StrLess("1", "2");
    assert IsLeast((1, "1"), s5.sorted);
    LeastUnique(s5.sorted);
    var s6 := Longest.LargeState(3, {(1, "2"), (3, "123"), (4, "1234")});
    assert s5.sorted - {(1, "1")} + {(4, "1234")} == s6.sorted;
  }

  /** The listings of the final set, in both directions. */
  lemma LargeEnds()
    ensures var up, down := Listing({(1, "2"), (3, "123"), (4, "1234")}, false), Listing({(1, "2"), (3, "123"), (4, "1234")}, true);
      && |up| == 3 && up[0].1 == "2" && up[2].1 == "1234"
      && |down| == 3 && down[0].1 == "1234" && down[2].1 == "2"
  {
    var s: set<Entry> := {(1, "2"), (3, "123"), (4, "1234")};
    assert |s| == 3;
    ListingEnds(s, (1, "2"), (4, "1234"));
  }

  // The states of `FindSmall(3)` after each word of "1234", "2345", "345", "45".
  const S1 := Shortest.SmallState(1, map[4 := {"1234"}])
  const S2 := Shortest.SmallState(2, map[4 := {"1234", "2345"}])
  const S3 := Shortest.SmallState(3, map[4 := {"1234", "2345"}, 3 := {"345"}])
  const S4 := Shortest.SmallState(3, map[4 := {"1234"}, 3 := {"345"}, 2 := {"45"}])

  /**
    `FindSmall(3)` fed "1234", "2345", "345", "45", each after counting it: the first
    three fill the tracker, then "45" displaces "2345", the greatest word of the
    longest bucket, leaving "45", "345" and "1234".
   */
  lemma SmallScenario()
    ensures
      var s1 := Shortest.Feed(Shortest.Empty, 3, map["1234" := 1], "1234");
      var s2 := Shortest.Feed(s1, 3, map["1234" := 1, "2345" := 1], "2345");
      var s3 := Shortest.Feed(s2, 3, map["1234" := 1, "2345" := 1, "345" := 1], "345");
      var s4 := Shortest.Feed(s3, 3, map["1234" := 1, "2345" := 1, "345" := 1, "45" := 1], "45");
      && s4.buckets == map[2 := {"45"}, 3 := {"345"}, 4 := {"1234"}]
      && (forall w :: Shortest.Retains(s4.buckets, w) <==> w == "45" || w == "345" || w == "1234")
  {
    var s1 := Shortest.Feed(Shortest.Empty, 3, map["1234" := 1], "1234");
    assert s1 == S1;
    var s2 := Shortest.Feed(s1, 3, map["1234" := 1, "2345" := 1], "2345");
    SmallSecond(s1);
    var s3 := Shortest.Feed(s2, 3, map["1234" := 1, "2345" := 1, "345" := 1], "345");
    SmallThird(s2);
    SmallFourth(s3);
    SmallFinal();
  }

  lemma SmallSecond(st: Shortest.SmallState)
    requires st == S1 && Shortest.Inv(st, 3)
    ensures Shortest.Feed(st, 3, map["1234" := 1, "2345" := 1], "2345") == S2
  {
    assert Shortest.Feed(st, 3, map["1234" := 1, "2345" := 1], "2345") == Shortest.SmallState(2, Shortest.AddTo(st.buckets, "2345"));
    assert {"1234"} + {"2345"} == {"1234", "2345"};
  }

  lemma SmallThird(st: Shortest.SmallState)
    requires st == S2 && Shortest.Inv(st, 3)
    ensures Shortest.Feed(st, 3, map["1234" := 1, "2345" := 1, "345" := 1], "345") == S3
  {
  }

  /** "45" is shorter than the longest bucket, 4, whose greatest word is "2345". */
  lemma SmallFourth(st: Shortest.SmallState)
    requires st == S3 && Shortest.Inv(st, 3)
    ensures Shortest.Feed(st, 3, map["1234" := 1, "2345" := 1, "345" := 1, "45" := 1], "45") == S4
  {
    var b := S3.buckets;
    assert MaxOf(b.Keys) == 4 by {
      assert b.Keys == {3, 4};
    }
    GreatestOfS3();
    assert Shortest.Feed(st, 3, map["1234" := 1, "2345" := 1, "345" := 1, "45" := 1], "45")
        == Shortest.SmallState(3, Shortest.AddTo(Shortest.DropGreatest(b, 4), "45"));
    DropFromS3();
  }

  lemma GreatestOfS3()
    ensures GreatestWord(S3.buckets[4]) == "2345"
  {
    assert StrLess("1234", "2345");
    assert IsGreatestWord("2345", S3.buckets[4]);
    GreatestWordUnique(S3.buckets[4]);
  }

  lemma DropFromS3()
    ensures Shortest.AddTo(Shortest.DropGreatest(S3.buckets, 4), "45") == S4.buckets
  {
    var b := S3.buckets;
    GreatestOfS3();
    assert b[4] - {"2345"} == {"1234"};
  }

  lemma SmallFinal()
    ensures S4.buckets == map[2 := {"45"}, 3 := {"345"}, 4 := {"1234"}]
    ensures forall w :: Shortest.Retains(S4.buckets, w) <==> w == "45" || w == "345" || w == "1234"
  {
    var b := S4.buckets;
    assert b.Keys == {2, 3, 4};
  }

  /** Lowercase folding of the test's words. */
  lemma FoldedKeys()
    ensures Lower("this") == "this" && Lower("THIS") == "this"
  {
    assert Lower("this") == "this";
    assert Lower("THIS") == "this";
  }

  /** With case ignored, "this", "this" and "THIS" share one key. */
  lemma IgnoreCaseScenario()
    ensures Table(map[], true, ["this", "this", "THIS"]) == map["this" := 3]
  {
    FoldedKeys();
    var none: seq<string> := [];
    TableNext(map[], true, none, "this");
    assert none + ["this"] == ["this"];
    TableNext(map[], true, ["this"], "this");
    assert ["this"] + ["this"] == ["this", "this"];
    TableNext(map[], true, ["this", "this"], "THIS");
    assert ["this", "this"] + ["THIS"] == ["this", "this", "THIS"];
  }

  /** Once case is significant again, "that", "that" and "THAT" make two more keys. */
  lemma CaseSensitiveScenario()
    ensures Table(map["this" := 3], false, ["that", "that", "THAT"]) == map["this" := 3, "that" := 2, "THAT" := 1]
  {
    var none: seq<string> := [];
    var c := map["this" := 3];
    TableNext(c, false, none, "that");
    assert none + ["that"] == ["that"];
    TableNext(c, false, ["that"], "that");
    assert ["that"] + ["that"] == ["that", "that"];
    TableNext(c, false, ["that", "that"], "THAT");
    assert ["that", "that"] + ["THAT"] == ["that", "that", "THAT"];
  }

  /** The segments of a text given as the segments joined with single spaces. */
  lemma SplitOf(text: string, parts: seq<string>)
    requires |parts| >= 1 && Join(parts) == text
    requires forall i :: 0 <= i < |parts| ==> NoSpace(parts[i])
    ensures Split(text) == parts
  {
    SplitJoin(parts);
  }

  // The segments of the buffers of the controller's leftover and first-word cases.
  lemma SplitWords()
    ensures Split("aa bb cc dd") == ["aa", "bb", "cc", "dd"]
  {
    var parts := ["aa", "bb", "cc", "dd"];
    assert NoSpace("aa") && NoSpace("bb") && NoSpace("cc") && NoSpace("dd");
    assert Join(parts[3..]) == "dd";
    assert Join(parts[2..]) == "cc dd";
    assert Join(parts[1..]) == "bb cc dd";
    assert Join(parts) == "aa bb cc dd";
    SplitOf("aa bb cc dd", parts);
  }

  lemma SplitCarried()
    ensures Split(Combined(Some("ee"), "aa bb cc dd")) == ["eeaa", "bb", "cc", "dd"]
  {
    var parts := ["eeaa", "bb", "cc", "dd"];
    assert NoSpace("eeaa") && NoSpace("bb") && NoSpace("cc") && NoSpace("dd");
    assert Join(parts[3..]) == "dd";
    assert Join(parts[2..]) == "cc dd";
    assert Join(parts[1..]) == "bb cc dd";
    assert Join(parts) == "eeaa bb cc dd";
    assert Combined(Some("ee"), "aa bb cc dd") == "eeaa bb cc dd";
    SplitOf("eeaa bb cc dd", parts);
  }

  lemma SplitSpaced()
    ensures Split("aa bb cc dd ") == ["aa", "bb", "cc", "dd", ""]
  {
    var parts := ["aa", "bb", "cc", "dd", ""];
    assert NoSpace("aa") && NoSpace("bb") && NoSpace("cc") && NoSpace("dd") && NoSpace("");
    assert Join(parts[4..]) == "";
    assert Join(parts[3..]) == "dd ";
    assert Join(parts[2..]) == "cc dd ";
    assert Join(parts[1..]) == "bb cc dd ";
    assert Join(parts) == "aa bb cc dd ";
    SplitOf("aa bb cc dd ", parts);
  }

  lemma SplitCarriedSpaced()
    ensures Split(Combined(Some("ee"), "aa bb cc dd ")) == ["eeaa", "bb", "cc", "dd", ""]
  {
    var parts := ["eeaa", "bb", "cc", "dd", ""];
    assert NoSpace("eeaa") && NoSpace("bb") && NoSpace("cc") && NoSpace("dd") && NoSpace("");
    assert Join(parts[4..]) == "";
    assert Join(parts[3..]) == "dd ";
    assert Join(parts[2..]) == "cc dd ";
    assert Join(parts[1..]) == "bb cc dd ";
    assert Join(parts) == "eeaa bb cc dd ";
    assert Combined(Some("ee"), "aa bb cc dd ") == "eeaa bb cc dd ";
    SplitOf("eeaa bb cc dd ", parts);
  }

  lemma SplitLeadingSpace()
    ensures Split(" aa bb cc dd") == ["", "aa", "bb", "cc", "dd"]
  {
    var parts := ["", "aa", "bb", "cc", "dd"];
    assert NoSpace("") && NoSpace("aa") && NoSpace("bb") && NoSpace("cc") && NoSpace("dd");
    assert Join(parts[4..]) == "dd";
    assert Join(parts[3..]) == "cc dd";
    assert Join(parts[2..]) == "bb cc dd";
    assert Join(parts[1..]) == "aa bb cc dd";
    assert Join(parts) == " aa bb cc dd";
    SplitOf(" aa bb cc dd", parts);
  }

  lemma SplitCarriedLeadingSpace()
    ensures Split(Combined(Some("ee"), " aa bb cc dd")) == ["ee", "aa", "bb", "cc", "dd"]
  {
    var parts := ["ee", "aa", "bb", "cc", "dd"];
    assert NoSpace("ee") && NoSpace("aa") && NoSpace("bb") && NoSpace("cc") && NoSpace("dd");
    assert Join(parts[4..]) == "dd";
    assert Join(parts[3..]) == "cc dd";
    assert Join(parts[2..]) == "bb cc dd";
    assert Join(parts[1..]) == "aa bb cc dd";
    assert Join(parts) == "ee aa bb cc dd";
    SplitOf("ee aa bb cc dd", parts);
    CarriedBeforeSpace();
  }

  /** The carried word `ee` before a buffer starting with a space. */
  lemma CarriedBeforeSpace()
    ensures Combined(Some("ee"), " aa bb cc dd") == "ee aa bb cc dd"
  {
  }

  /** Without a carried word the text is the buffer itself. */
  lemma NothingCarried(chunk: string)
    ensures Combined(None, chunk) == chunk
  {
  }

  /** A four-segment split seen as its first three segments and its last. */
  lemma LastOfFour(a: string, b: string, c: string, d: string)
    ensures [a, b, c, d] == [a, b, c] + [d]
  {
  }

  /** A five-segment split seen as its first four segments and its last. */
  lemma LastOfFive(a: string, b: string, c: string, d: string, e: string)
    ensures [a, b, c, d, e] == [a, b, c, d] + [e]
  {
  }

  /** `SplitBuffer` and its as-written form when the buffer does not end in a space. */
  lemma BufferCarries(partial: Option<string>, chunk: string, init: seq<string>, lastWord: string)
    requires |chunk| > 0 && chunk[|chunk| - 1] != ' '
    requires Split(Combined(partial, chunk)) == init + [lastWord]
    ensures SplitBuffer(partial, chunk) == (init, Some(lastWord))
    ensures SplitBufferAsWritten(partial, chunk) == (init, Some(lastWord))
  {
    var text := Combined(partial, chunk);
    assert text[|text| - 1] == chunk[|chunk| - 1];
    assert (init + [lastWord])[..|init|] == init;
  }

  /** `SplitBuffer` and its as-written form when the buffer ends in a space. */
  lemma BufferEndsInSpace(partial: Option<string>, chunk: string, parts: seq<string>)
    requires |chunk| > 0 && chunk[|chunk| - 1] == ' '
    requires Split(Combined(partial, chunk)) == parts
    ensures SplitBuffer(partial, chunk) == (parts, None)
    ensures SplitBufferAsWritten(partial, chunk) == (parts, partial)
  {
    var text := Combined(partial, chunk);
    assert text[|text| - 1] == chunk[|chunk| - 1];
  }

  /** A buffer not ending in a space hands its last word on. */
  lemma LeftoverScenario()
    ensures SplitBuffer(None, "aa bb cc dd") == (["aa", "bb", "cc"], Some("dd"))
    ensures SplitBufferAsWritten(None, "aa bb cc dd") == (["aa", "bb", "cc"], Some("dd"))
  {
    SplitWords();
    NothingCarried("aa bb cc dd");
    LastOfFour("aa", "bb", "cc", "dd");
    BufferCarries(None, "aa bb cc dd", ["aa", "bb", "cc"], "dd");
  }

  /** The carried word runs on into the buffer's first segment. */
  lemma CarriedLeftoverScenario()
    ensures SplitBuffer(Some("ee"), "aa bb cc dd") == (["eeaa", "bb", "cc"], Some("dd"))
    ensures SplitBufferAsWritten(Some("ee"), "aa bb cc dd") == (["eeaa", "bb", "cc"], Some("dd"))
  {
    SplitCarried();
    LastOfFour("eeaa", "bb", "cc", "dd");
    BufferCarries(Some("ee"), "aa bb cc dd", ["eeaa", "bb", "cc"], "dd");
  }

  /** A buffer ending in a space hands nothing on. */
  lemma NoLeftoverScenario()
    ensures SplitBuffer(None, "aa bb cc dd ") == (["aa", "bb", "cc", "dd", ""], None)
    ensures SplitBufferAsWritten(None, "aa bb cc dd ") == (["aa", "bb", "cc", "dd", ""], None)
  {
    SplitSpaced();
    NothingCarried("aa bb cc dd ");
    BufferEndsInSpace(None, "aa bb cc dd ", ["aa", "bb", "cc", "dd", ""]);
  }

  /**
    After a carried word, a buffer ending in a space hands nothing on; as written,
    the carried word "ee" is handed back.
   */
  lemma CarriedNoLeftoverScenario()
    ensures SplitBuffer(Some("ee"), "aa bb cc dd ") == (["eeaa", "bb", "cc", "dd", ""], None)
    ensures SplitBufferAsWritten(Some("ee"), "aa bb cc dd ") == (["eeaa", "bb", "cc", "dd", ""], Some("ee"))
  {
    SplitCarriedSpaced();
    BufferEndsInSpace(Some("ee"), "aa bb cc dd ", ["eeaa", "bb", "cc", "dd", ""]);
  }

  /** A buffer starting with a space yields an empty first word. */
  lemma LeadingSpaceScenario()
    ensures SplitBuffer(None, " aa bb cc dd") == (["", "aa", "bb", "cc"], Some("dd"))
    ensures SplitBufferAsWritten(None, " aa bb cc dd") == (["", "aa", "bb", "cc"], Some("dd"))
  {
    SplitLeadingSpace();
    NothingCarried(" aa bb cc dd");
    LastOfFive("", "aa", "bb", "cc", "dd");
    BufferCarries(None, " aa bb cc dd", ["", "aa", "bb", "cc"], "dd");
  }

  /** After a carried word, a buffer starting with a space yields the carried word first. */
  lemma CarriedLeadingSpaceScenario()
    ensures SplitBuffer(Some("ee"), " aa bb cc dd") == (["ee", "aa", "bb", "cc"], Some("dd"))
    ensures SplitBufferAsWritten(Some("ee"), " aa bb cc dd") == (["ee", "aa", "bb", "cc"], Some("dd"))
  {
    SplitCarriedLeadingSpace();
    LastOfFive("ee", "aa", "bb", "cc", "dd");
    BufferCarries(Some("ee"), " aa bb cc dd", ["ee", "aa", "bb", "cc"], "dd");
  }
}
