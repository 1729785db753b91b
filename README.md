# Word stream statistics, modelled in Dafny

Booster_WordStream reads a stream of text in buffers and keeps statistics on it.
This project models the core of that program and proves properties of the model.

- **Collection.** `WordCollectionData` counts characters and words. It keeps one
  table of character frequencies and one of word frequencies. Words are folded to
  lowercase unless case is made significant.
- **Trackers.** Every registered word statistic receives each counted word:
  - `FindFrequent` keeps the `max_words` most frequent words;
  - `FindLarge` keeps the `max_words` longest distinct words;
  - `FindSmall` keeps the `max_words` shortest distinct words.
- **Controller.** `WordStreamController` is a three-state machine (`Off`,
  `Stopped`, `Running`) around the read loop. Each buffer's characters are
  counted. The buffer is then split on spaces, with the unfinished word carried
  over from the previous buffer prefixed to it. Its words go to the collection,
  and its own unfinished last word is carried on. The controller is modelled as
  the code is written, including how it carries over when a buffer ends in a
  space (see "## Findings"). At the end of the stream, a
  pending word that is not empty is counted as one more word.

Modules, one per file, each holding the part of the program named after it:

| file | module | models |
|---|---|---|
| `ordering.dfy` | `Ordering` | the order of `(int, string)` tuples and of strings; `SortedSet` enumeration, `First()`, `Last()`, `Reverse()` and the last key of a `SortedDictionary` |
| `frequency_table.dfy` | `FrequencyTable` | the shared word table (`Dictionary<string, int>` passed by reference), the counter updates, character counting and `ToLower` |
| `find_frequent.dfy` | `MostFrequent` | `FindFrequent` |
| `find_large.dfy` | `Longest` | `FindLarge` |
| `find_small.dfy` | `Shortest` | `FindSmall` |
| `word_collection.dfy` | `WordCollection` | `WordCollectionData` and its set of registered trackers |
| `tokenizer.dfy` | `Tokenizer` | `String.Split(' ')`, the carry-over of partial words, and the words a whole stream yields |
| `stream_controller.dfy` | `StreamControl` | `WordStreamController` |
| `scenarios.dfy` | `Scenarios` | the inputs and expected results of the repository's unit tests |

Mutable objects are Dafny classes:
- Each tracker is a class. Its methods are specified against a pure function on
  its state: `Update`, `Feed` and `Empty`.
- The shared word table is a class object. The collection and every tracker hold
  a reference to it, as the source passes it by `ref`.
- The collection is a class whose ghost `Repr` holds exactly the registered tracker
  objects. The collection's methods are stated in terms of the functions
  `Table` (word counts), `AddChars` (character counts) and `FeedAll` (what each
  tracker's state becomes).
- The controller is a class. `GetStreamState` is a plain reading function of
  the state field.

## Model

| member | source | states |
|---|---|---|
| Ordering.Least | Booster_WordStream/Controllers/WordStatistics/FindFrequent.cs:78 | `SortedSet.First()`: the entry that is less, in tuple order, than every other entry of a non-empty set |
| Ordering.Enumerate | Booster_WordStream/Controllers/WordStatistics/FindLarge.cs:32 | enumerating a sorted set lists each of its entries exactly once, strictly ascending |
| Ordering.Listing | Booster_WordStream/Controllers/WordStatistics/FindLarge.cs:24-34 | `GetWords(descending)` on a sorted set: every entry once, strictly ascending or strictly descending |
| Ordering.ReverseAscending | Booster_WordStream/Controllers/WordStatistics/FindLarge.cs:28 | `Reverse()` of an ascending listing is descending |
| Ordering.GreatestWord | Booster_WordStream/Controllers/WordStatistics/FindSmall.cs:89 | `last_set.Last()`: the word greater, in ordinal order, than every other word of a non-empty set |
| Ordering.MaxOf | Booster_WordStream/Controllers/WordStatistics/FindSmall.cs:74 | `words_sorted.Last().Key`: the largest key |
| Ordering.EntryLessTotal | Booster_WordStream/Controllers/WordStatistics/FindFrequent.cs:15 | the tuple order of the sorted sets is total: of two distinct entries, one is less |
| Ordering.EntryLessTransitive | Booster_WordStream/Controllers/WordStatistics/FindFrequent.cs:15 | the tuple order is transitive |
| FrequencyTable.WordTable.constructor | Booster_WordStream/Models/WordCollectionData.cs:17 | a new word table is empty |
| FrequencyTable.Bump | Booster_WordStream/Models/WordCollectionData.cs:94-101 | counting a key adds one to its count, creating it at 1, and leaves every other count alone |
| FrequencyTable.TotalBump | Booster_WordStream/Models/WordCollectionData.cs:85-101 | counting a key adds one to the sum of all counts |
| FrequencyTable.AddCharsCounts | Booster_WordStream/Models/WordCollectionData.cs:65-76 | counting a string adds to each character's count exactly its number of occurrences in the string |
| FrequencyTable.AddCharsTotal | Booster_WordStream/Models/WordCollectionData.cs:63-76 | counting a string adds its length to the sum of the character counts, so `num_chars` stays that sum |
| FrequencyTable.AddCharsAppend | Booster_WordStream/Models/WordCollectionData.cs:60-77 | counting two strings one after the other is counting their concatenation |
| FrequencyTable.Lower | Booster_WordStream/Models/WordCollectionData.cs:90 | `ToLower()` keeps the length and lowercases each character |
| FrequencyTable.LowerIdempotent | Booster_WordStream/Models/WordCollectionData.cs:90 | lowercasing twice is lowercasing once |
| FrequencyTable.TableNext | Booster_WordStream/Models/WordCollectionData.cs:85-101 | counting one more word bumps the table at the word's key |
| FrequencyTable.TableTotal | Booster_WordStream/Models/WordCollectionData.cs:85-101 | counting words adds their number to the sum of the word counts, so `num_words` stays that sum |
| FrequencyTable.TableAppend | Booster_WordStream/Models/WordCollectionData.cs:114-121 | counting two word lists one after the other is counting their concatenation |
| FrequencyTable.TablePositive | Booster_WordStream/Models/WordCollectionData.cs:94-101 | every count in the word table is at least one |
| MostFrequent.Update | Booster_WordStream/Controllers/WordStatistics/FindFrequent.cs:54-91 | `UpdateWords` keeps the tracker invariant: at most `max_words` entries, `num_words` is their number, and `words_sorted` and `words_most_frequent` hold the same words with the same frequencies |
| MostFrequent.Feed | Booster_WordStream/Controllers/WordStatistics/FindFrequent.cs:39-42 | `AddWord` reads the frequency from the shared table, 0 when absent, and keeps the invariant |
| MostFrequent.RefreshInv | Booster_WordStream/Controllers/WordStatistics/FindFrequent.cs:59-65 | moving a tracked word to its new frequency keeps the invariant |
| MostFrequent.InsertInv | Booster_WordStream/Controllers/WordStatistics/FindFrequent.cs:67-74 | adding a new word while there is room keeps the invariant |
| MostFrequent.ReplaceInv | Booster_WordStream/Controllers/WordStatistics/FindFrequent.cs:75-89 | evicting an entry and adding a new word keeps the invariant |
| MostFrequent.UpdateTracked | Booster_WordStream/Controllers/WordStatistics/FindFrequent.cs:59-65 | a tracked word gets its new frequency; no other word, entry or count changes |
| MostFrequent.UpdateInsert | Booster_WordStream/Controllers/WordStatistics/FindFrequent.cs:67-74 | while there is room, an untracked word is added with its frequency and `num_words` grows by one |
| MostFrequent.UpdateFull | Booster_WordStream/Controllers/WordStatistics/FindFrequent.cs:75-89 | once full, an untracked word replaces the least entry exactly when it is strictly more frequent; otherwise nothing changes |
| MostFrequent.Pairs | Booster_WordStream/Controllers/WordStatistics/FindFrequent.cs:31-35 | `ToDictionary` turns each (frequency, word) entry into (word, frequency), keeping the order |
| MostFrequent.PairsTracked | Booster_WordStream/Controllers/WordStatistics/FindFrequent.cs:31-35 | the listed pairs are tracked words with their stored frequencies, each word once |
| MostFrequent.PairsOrdered | Booster_WordStream/Controllers/WordStatistics/FindFrequent.cs:31-35 | an ordered listing holds no entry twice, and its pairs keep the order |
| MostFrequent.RankingFacts | Booster_WordStream/Controllers/WordStatistics/FindFrequent.cs:27-37 | `GetWords(descending)` lists every tracked word exactly once with its frequency, `num_words` of them, in the chosen order |
| MostFrequent.PairsReverse | Booster_WordStream/Controllers/WordStatistics/FindFrequent.cs:29-36 | turning entries into (word, frequency) pairs commutes with reversing the listing |
| MostFrequent.RankingReversed | Booster_WordStream/Controllers/WordStatistics/FindFrequent.cs:29-36 | the descending listing is the ascending one reversed |
| MostFrequent.FindFrequent.constructor | Booster_WordStream/Controllers/WordStatistics/FindFrequent.cs:17-20 | a new tracker is empty and not yet bound to a word table |
| MostFrequent.FindFrequent.SetWordDict | Booster_WordStream/Controllers/WordStatistics/FindFrequent.cs:22-25 | binds the shared table and changes nothing else |
| MostFrequent.FindFrequent.GetWords | Booster_WordStream/Controllers/WordStatistics/FindFrequent.cs:27-37 | every tracked word exactly once, with its stored frequency, ordered by (frequency, word) in the chosen direction |
| MostFrequent.FindFrequent.AddWord | Booster_WordStream/Controllers/WordStatistics/FindFrequent.cs:39-42 | the new state is `Feed` of the old one, and the invariant holds |
| MostFrequent.FindFrequent.ClearData | Booster_WordStream/Controllers/WordStatistics/FindFrequent.cs:44-49 | the tracker is empty again and stays bound to its table |
| MostFrequent.FindFrequent.UpdateWords | Booster_WordStream/Controllers/WordStatistics/FindFrequent.cs:54-91 | the new state is `Update` of the old one at the word's frequency in the shared table |
| Longest.Update | Booster_WordStream/Controllers/WordStatistics/FindLarge.cs:54-79 | `UpdateWords` keeps the invariant: at most `max_words` entries, each the (length, word) of its word |
| Longest.Feed | Booster_WordStream/Controllers/WordStatistics/FindLarge.cs:36-43 | only a word whose count in the shared table is exactly 1 is considered; any other word leaves the state unchanged |
| Longest.UpdateCounts | Booster_WordStream/Controllers/WordStatistics/FindLarge.cs:59-65 | `num_words` stays the number of entries when the word is not yet held |
| Longest.FeedCounts | Booster_WordStream/Controllers/WordStatistics/FindLarge.cs:36-43 | fed by the collection after the word was counted into the shared table, the tracker keeps `num_words` equal to the number of entries and holds only words of the table: the gate `count == 1` lets a word through only before it can be held |
| Longest.UpdateInsert | Booster_WordStream/Controllers/WordStatistics/FindLarge.cs:59-65 | while there is room, the word's entry is added and `num_words` grows by one |
| Longest.UpdateFull | Booster_WordStream/Controllers/WordStatistics/FindLarge.cs:66-78 | once full, the least entry is replaced exactly when the new word is strictly longer; otherwise nothing changes |
| Longest.UpdateKeepsMinimum | Booster_WordStream/Controllers/WordStatistics/FindLarge.cs:68-77 | once full, the least retained length never decreases |
| Longest.UpdateKeepsLongest | Booster_WordStream/Controllers/WordStatistics/FindLarge.cs:68-77 | once full, a word that is turned away or evicted is no longer than any retained word |
| Longest.FindLarge.constructor | Booster_WordStream/Controllers/WordStatistics/FindLarge.cs:14-17 | a new tracker is empty and not yet bound to a word table |
| Longest.FindLarge.SetWordDict | Booster_WordStream/Controllers/WordStatistics/FindLarge.cs:19-22 | binds the shared table and changes nothing else |
| Longest.FindLarge.GetWords | Booster_WordStream/Controllers/WordStatistics/FindLarge.cs:24-34 | every retained entry exactly once, strictly ascending, or strictly descending when asked |
| Longest.GetWordsReversed | Booster_WordStream/Controllers/WordStatistics/FindLarge.cs:26-33 | the descending listing is the ascending one reversed |
| Longest.FindLarge.AddWord | Booster_WordStream/Controllers/WordStatistics/FindLarge.cs:36-43 | the new state is `Feed` of the old one |
| Longest.FindLarge.ClearData | Booster_WordStream/Controllers/WordStatistics/FindLarge.cs:45-49 | the tracker is empty again and stays bound to its table |
| Longest.FindLarge.UpdateWords | Booster_WordStream/Controllers/WordStatistics/FindLarge.cs:54-79 | the new state is `Update` of the old one |
| Shortest.AddTo | Booster_WordStream/Controllers/WordStatistics/FindSmall.cs:63-70 | the word is added to the bucket of its length, the bucket being created when absent |
| Shortest.AddToFacts | Booster_WordStream/Controllers/WordStatistics/FindSmall.cs:63-70 | adding keeps every word in the bucket of its length and no bucket empty; the held words gain exactly the new word |
| Shortest.AddToCount | Booster_WordStream/Controllers/WordStatistics/FindSmall.cs:63-70 | adding a word not yet held adds one to the number of held words |
| Shortest.DropGreatest | Booster_WordStream/Controllers/WordStatistics/FindSmall.cs:80-90 | removes the greatest word of a bucket, and drops the bucket when that word was its only one |
| Shortest.DropGreatestFacts | Booster_WordStream/Controllers/WordStatistics/FindSmall.cs:80-90 | after the drop, the held words are the old ones less the greatest word of that bucket, and one fewer |
| Shortest.DropGreatestCount | Booster_WordStream/Controllers/WordStatistics/FindSmall.cs:80-90 | the drop removes exactly one held word |
| Shortest.Update | Booster_WordStream/Controllers/WordStatistics/FindSmall.cs:53-103 | `UpdateWords` keeps the invariant: no empty bucket, each word in the bucket of its length, at most `max_words` words |
| Shortest.Feed | Booster_WordStream/Controllers/WordStatistics/FindSmall.cs:41-48 | only a word whose count in the shared table is exactly 1 is considered; any other word leaves the state unchanged |
| Shortest.UpdateCounts | Booster_WordStream/Controllers/WordStatistics/FindSmall.cs:58-71 | `num_words` stays the number of held words when the word is not yet held |
| Shortest.FeedCounts | Booster_WordStream/Controllers/WordStatistics/FindSmall.cs:41-48 | fed by the collection after the word was counted into the shared table, the tracker keeps `num_words` equal to the number of held words and holds only words of the table |
| Shortest.UpdateInsert | Booster_WordStream/Controllers/WordStatistics/FindSmall.cs:58-71 | while there is room, the word joins the held words and `num_words` grows by one |
| Shortest.UpdateFull | Booster_WordStream/Controllers/WordStatistics/FindSmall.cs:72-101 | once full, the greatest word of the longest bucket is traded for the new word exactly when the new word is strictly shorter; otherwise nothing changes |
| Shortest.UpdateKeepsMaximum | Booster_WordStream/Controllers/WordStatistics/FindSmall.cs:72-101 | once full, the longest retained length never increases |
| Shortest.UpdateKeepsShortest | Booster_WordStream/Controllers/WordStatistics/FindSmall.cs:72-101 | once full, a word that is turned away or evicted is no shorter than any retained word |
| Shortest.FindSmall.constructor | Booster_WordStream/Controllers/WordStatistics/FindSmall.cs:16-19 | a new tracker is empty and not yet bound to a word table |
| Shortest.FindSmall.SetWordDict | Booster_WordStream/Controllers/WordStatistics/FindSmall.cs:21-24 | binds the shared table and changes nothing else |
| Shortest.FindSmall.GetWords | Booster_WordStream/Controllers/WordStatistics/FindSmall.cs:26-39 | maps exactly the held words, each to its length (the key of its bucket) |
| Shortest.FindSmall.AddBucket | Booster_WordStream/Controllers/WordStatistics/FindSmall.cs:32-35 | the inner loop maps every word of one bucket to the bucket's key and keeps the other entries |
| Shortest.FindSmall.AddWord | Booster_WordStream/Controllers/WordStatistics/FindSmall.cs:41-48 | the new state is `Feed` of the old one |
| Shortest.FindSmall.ClearData | Booster_WordStream/Models/WordCollectionData.cs:136 | the tracker is empty again and stays bound to its table; the collection's `ClearData` calls it on every tracker |
| Shortest.FindSmall.UpdateWords | Booster_WordStream/Controllers/WordStatistics/FindSmall.cs:53-103 | the new state is `Update` of the old one |
| WordCollection.FeedView | Booster_WordStream/Models/WordCollectionData.cs:106 | one tracker's `AddWord`, whatever its kind, keeps that kind's invariant and its kind |
| WordCollection.ClearView | Booster_WordStream/Models/WordCollectionData.cs:136 | one tracker's `ClearData`, whatever its kind, gives the empty state of that kind |
| WordCollection.FeedAll | Booster_WordStream/Models/WordCollectionData.cs:114-121 | feeding a list of words, each counted into the table before the tracker sees its key, keeps the tracker's invariant |
| WordCollection.FeedAllAppend | Booster_WordStream/Models/WordCollectionData.cs:114-121 | feeding two lists one after the other is feeding their concatenation |
| WordCollection.FeedAllNext | Booster_WordStream/Models/WordCollectionData.cs:114-121 | one more word feeds the trackers its key with the table bumped at that key |
| WordCollection.FeedAllStep | Booster_WordStream/Models/WordCollectionData.cs:114-121 | feeding a second list to a tracker already fed the first is feeding the concatenation |
| WordCollection.FeedAllExact | Booster_WordStream/Models/WordCollectionData.cs:85-121 | counting any list of words through the collection keeps the largest and smallest trackers' `num_words` exact and their words keys of the table |
| WordCollection.ClearViewExact | Booster_WordStream/Models/WordCollectionData.cs:126-138 | after `ClearData` the trackers' counters are exact on the emptied table |
| WordCollection.StatObjInjective | Booster_WordStream/Models/WordCollectionData.cs:29 | two registrations are equal exactly when they refer to the same tracker object |
| WordCollection.StatSetWordDict | Booster_WordStream/Models/WordCollectionData.cs:31 | binding a tracker to the table leaves its state alone |
| WordCollection.StatAddWord | Booster_WordStream/Models/WordCollectionData.cs:106 | a tracker's `AddWord` moves its state by `FeedView` |
| WordCollection.StatClearData | Booster_WordStream/Models/WordCollectionData.cs:136 | a tracker's `ClearData` moves its state by `ClearView` |
| WordCollection.WordCollectionData.constructor | Booster_WordStream/Models/WordCollectionData.cs:11-19 | a new collection has zero counts, empty tables, no trackers and an empty footprint `Repr`, and ignores word case |
| WordCollection.CountIntoNew | Booster_WordStream/Models/WordCollectionData.cs:11-19 | a new collection counts a word under its lowercased key without touching any object that existed before |
| WordCollection.RemoveThenAdd | Booster_WordStream/Models/WordCollectionData.cs:44-55 | a tracker removed from the collection is left unchanged by a later `AddWord` |
| WordCollection.WordCollectionData.AddStat | Booster_WordStream/Models/WordCollectionData.cs:25-38 | true exactly when the tracker was not registered; afterwards it is registered and bound to the word table, and `Repr` gains exactly its object; counts and other trackers are unchanged |
| WordCollection.WordCollectionData.RemoveStat | Booster_WordStream/Models/WordCollectionData.cs:44-55 | true exactly when the tracker was registered; afterwards it is not, and `Repr` loses exactly its object; nothing else changes |
| WordCollection.WordCollectionData.AddString | Booster_WordStream/Models/WordCollectionData.cs:60-77 | `num_chars` grows by the length; each character's count grows by its occurrences; words are untouched |
| WordCollection.WordCollectionData.AddWord | Booster_WordStream/Models/WordCollectionData.cs:82-108 | `num_words` grows by one; the word's key (lowercased when case is ignored) is bumped; every registered tracker is fed that key after the count |
| WordCollection.WordCollectionData.FanOut | Booster_WordStream/Models/WordCollectionData.cs:104-107 | every registered tracker is fed the key once, with the table as it is after the count |
| WordCollection.WordCollectionData.AddWords | Booster_WordStream/Models/WordCollectionData.cs:114-121 | the same as `AddWord` on each word in order: `num_words` grows by the list's length, the table is `Table` of the list, and each tracker is `FeedAll` of it |
| WordCollection.WordCollectionData.ClearData | Booster_WordStream/Models/WordCollectionData.cs:126-138 | zero counts, both tables empty, every registered tracker cleared; registrations and case setting kept |
| WordCollection.WordCollectionData.ClearStats | Booster_WordStream/Models/WordCollectionData.cs:134-137 | every registered tracker is cleared |
| WordCollection.WordCollectionData.SetIgnoreWordCase | Booster_WordStream/Models/WordCollectionData.cs:144-147 | sets the case setting and changes nothing else |
| WordCollection.WordCollectionData.GetNumChars | Booster_WordStream/Models/WordCollectionData.cs:150 | the character count equals the sum of the character table |
| WordCollection.WordCollectionData.GetNumWords | Booster_WordStream/Models/WordCollectionData.cs:151 | the word count equals the sum of the word table |
| WordCollection.WordCollectionData.GetCharFrequency | Booster_WordStream/Models/WordCollectionData.cs:152 | the character table: counts all positive and summing to `num_chars` |
| WordCollection.WordCollectionData.GetWordFrequency | Booster_WordStream/Models/WordCollectionData.cs:153 | the word table: counts all positive and summing to `num_words` |
| Tokenizer.Split | Booster_WordStream/Controllers/WordStreamController.cs:92 | `Split(' ')` yields at least one segment |
| Tokenizer.JoinSplit | Booster_WordStream/Controllers/WordStreamController.cs:92 | joining the segments with single spaces gives back the text |
| Tokenizer.SplitJoin | Booster_WordStream/Controllers/WordStreamController.cs:92 | splitting segments without spaces, joined by single spaces, gives them back |
| Tokenizer.SplitNoSpace | Booster_WordStream/Controllers/WordStreamController.cs:92 | no segment holds a space |
| Tokenizer.SplitLast | Booster_WordStream/Controllers/WordStreamController.cs:92-95 | the last segment is empty exactly when the text is empty or ends in a space |
| Tokenizer.SplitAppend | Booster_WordStream/Controllers/WordStreamController.cs:91-92 | splitting a concatenation glues together the segments where the two parts meet |
| Tokenizer.SplitBufferFacts | Booster_WordStream/Controllers/WordStreamController.cs:91-104 | the buffer's words then its partial word, joined with spaces, are exactly the carried word plus the buffer; none holds a space; a partial word is handed on exactly when the text does not end in a space, and it is never empty |
| Tokenizer.StalePartialAsWritten | Booster_WordStream/Controllers/WordStreamController.cs:95-104 | as written, the carried word "ee" followed by "aa " is handed back; corrected, nothing is |
| Tokenizer.ReadTraceRun | Booster_WordStream/Controllers/WordStreamController.cs:41-46 | the loop's intermediate states are `RunAsWritten` and `Concat` of the buffers read so far |
| Tokenizer.AsWrittenAgrees | Booster_WordStream/Controllers/WordStreamController.cs:91-104 | the carry-over as written and the corrected one yield the same words, and hand on the same word unless the text ends in a space, where the written one hands back the carried word |
| Tokenizer.RunAsWrittenAgrees | Booster_WordStream/Controllers/WordStreamController.cs:41-53 | when no buffer ends in a space, the read loop as written and the corrected one agree, so the stream as written counts exactly the words of the whole text |
| Tokenizer.RunSplitsText | Booster_WordStream/Controllers/WordStreamController.cs:41-46 | after any number of buffers, the pending word is the last segment of the whole text, and the words handed on are its other segments, up to empty ones |
| Tokenizer.StreamWordsSplitText | Booster_WordStream/Controllers/WordStreamController.cs:41-53 | reading a stream to the end counts the words of the whole text, up to empty segments, whatever the buffer boundaries |
| Tokenizer.StreamStalePartialAsWritten | Booster_WordStream/Controllers/WordStreamController.cs:91-104 | as written, the buffers "ee" and "aa " yield "eeaa", "" and "ee" again, although the text holds the one word "eeaa" |
| StreamControl.WordStreamController.constructor | Booster_WordStream/Controllers/WordStreamController.cs:18-25 | a new controller is `Off` and holds the given collection |
| StreamControl.WordStreamController.StartStream | Booster_WordStream/Controllers/WordStreamController.cs:30-57 | does nothing while running; otherwise counts every character of the stream and `StreamWordsAsWritten` of it (the carry-over as written) into the collection and every tracker, then `Stopped` |
| StreamControl.WordStreamController.ReadStream | Booster_WordStream/Controllers/WordStreamController.cs:41-55 | the read loop followed by the end of the stream: the collection receives exactly the stream's characters and `StreamWordsAsWritten` |
| StreamControl.WordStreamController.ReadBuffers | Booster_WordStream/Controllers/WordStreamController.cs:41-46 | each buffer through `ProcessBuffer` in order: the collection receives exactly the characters read and `RunAsWritten`'s words, and the pending word is `RunAsWritten`'s |
| StreamControl.WordStreamController.EndOfStream | Booster_WordStream/Controllers/WordStreamController.cs:49-53 | a pending word that is not empty is counted as one more word; nothing else changes |
| StreamControl.WordStreamController.StopStream | Booster_WordStream/Controllers/WordStreamController.cs:63-70 | true exactly when it was running; then `Stopped`; otherwise the state is unchanged |
| StreamControl.WordStreamController.ProcessBuffer | Booster_WordStream/Controllers/WordStreamController.cs:83-105 | counts exactly the buffer's characters, then the words of the carried word plus the buffer as `SplitBufferAsWritten` yields them, and returns its partial word as written: the carried word itself when the text ends in a space |
| Scenarios.FrequentScenario | Booster_Tests/WordStream/Test_WordStatistics.cs:20 | the words a, b, c, d, d, c, b, b leave c, d and b tracked; the ascending ranking runs from "c" to "b" and the descending one from "b" to "c" |
| Scenarios.FrequentD | Booster_Tests/WordStream/Test_WordStatistics.cs:18 | the first "d" only ties the least entry and is turned away |
| Scenarios.FrequentD2 | Booster_Tests/WordStream/Test_WordStatistics.cs:18 | the second "d" evicts (1, "a") |
| Scenarios.LargeScenario | Booster_Tests/WordStream/Test_WordStatistics.cs:75 | the words 123, 123, 1, 1, 2, 1234 leave 2, 123 and 1234; the listings run from "2" to "1234" and back |
| Scenarios.SmallScenario | Booster_Tests/WordStream/Test_WordStatistics.cs:129 | the words 1234, 2345, 345, 45 leave exactly 45, 345 and 1234 |
| Scenarios.IgnoreCaseScenario | Booster_Tests/WordStream/Test_WordCollectionData.cs:33-45 | with case ignored, "this", "this" and "THIS" make the single key "this", counted 3 times |
| Scenarios.CaseSensitiveScenario | Booster_Tests/WordStream/Test_WordCollectionData.cs:48-60 | with case significant, "that", "that" and "THAT" add the keys "that" (2) and "THAT" (1) |
| Scenarios.LeftoverScenario | Booster_Tests/WordStream/Test_WordStreamController.cs:36 | "aa bb cc dd" yields aa, bb, cc and hands on "dd", both as written and corrected |
| Scenarios.CarriedLeftoverScenario | Booster_Tests/WordStream/Test_WordStreamController.cs:37 | after "ee", "aa bb cc dd" yields eeaa, bb, cc and hands on "dd", both as written and corrected |
| Scenarios.NoLeftoverScenario | Booster_Tests/WordStream/Test_WordStreamController.cs:38 | "aa bb cc dd " hands nothing on, both as written and corrected |
| Scenarios.CarriedNoLeftoverScenario | Booster_Tests/WordStream/Test_WordStreamController.cs:39 | after "ee", "aa bb cc dd " hands nothing on; as written, "ee" is handed back |
| Scenarios.LeadingSpaceScenario | Booster_Tests/WordStream/Test_WordStreamController.cs:53 | " aa bb cc dd" yields an empty first word, both as written and corrected |
| Scenarios.CarriedLeadingSpaceScenario | Booster_Tests/WordStream/Test_WordStreamController.cs:54 | after "ee", " aa bb cc dd" yields "ee" first, both as written and corrected |

## Left out

- The stream source: `WordStream`, `ReadAsync` and the byte buffer are not part of this model. `StartStream` takes the already decoded buffers as a sequence of strings.
- UTF-8 decoding: the source decodes the whole 4096-byte buffer, not only the bytes that one read filled, so stale bytes of an earlier read can be decoded again. Each buffer here is exactly the text read.
- StreamControl.WordStreamController.StartStream: every buffer must be non-empty. A read that returns bytes decodes the whole buffer, which is never empty.
- StreamControl.WordStreamController.StartStream: concurrency is left out. The source's `async` loop re-checks the state before each read, so a `StopStream` from elsewhere ends it early; here the loop runs to the end of the stream.
- StreamControl.WordStreamController.StartStream: disposing the `WordStream` (`using`) is left out.
- StreamControl.WordStreamController.GetStreamState: modelled as the field itself, with no contract beyond its body.
- StreamControl.WordStreamController.ReadStream, ReadBuffers and EndOfStream: these have no counterpart of their own in the source. Each is the code of `StartStream` between the cited lines, split out so each can be stated on its own.
- Word count: empty segments between adjacent spaces, or at either end of a buffer, are counted as words. This follows the code's `Split(' ')` with no filtering.
- Scenarios.LeadingSpaceScenario: the test at Booster_Tests/WordStream/Test_WordStreamController.cs:53 expects "aa" as the first word of " aa bb cc dd". The controller's code yields "" there, and the model follows the code. The tested `ProcessWords` does not exist in the controller.
- The test-only members are not modelled, since the core does not have them: `ProcessWords`, `ResetStream` and `SetIgnoreCase` of the tests.
- The interfaces `IWordStats` and `IWordCollection` are not modelled; `Stat` stands for the registered trackers. The interface `IWordStats` declares neither `ClearData` nor `GetWords(bool)`.
- Shortest.FindSmall.ClearData: the source's `FindSmall` has no `ClearData`, although the collection's `ClearData` calls one on every tracker. The model supplies one that empties the tracker, as `FindLarge`'s does.
- Casing: `ToLower` is culture-sensitive in the source. The model lowercases ASCII letters and keeps every other character.
- Ordering: the default string comparer of `SortedSet<(int, string)>` and `SortedSet<string>` is culture-sensitive. The model orders strings by character code (ordinal order).
- Enumeration order: `Dictionary` and `HashSet` enumeration order is left out. The trackers are fed in whatever order the set yields, and the results do not depend on it.
- MostFrequent.FindFrequent.GetWords: the result is a sequence of pairs in insertion order rather than a `Dictionary`. A dictionary built by `ToDictionary` enumerates in insertion order in practice, but does not promise it.
- Shortest.FindSmall.GetWords: the result is a map; the order in which the dictionary was filled is not kept.
- Aliasing of results: the getters of the collection return the tables themselves, which a caller could then modify. The model returns their values.
- MostFrequent.FindFrequent.constructor, Longest.FindLarge.constructor and Shortest.FindSmall.constructor: `max_words >= 1` is required. With 0, `FindFrequent` and `FindLarge` would call `First()` on an empty set and `FindSmall` `Last()` on an empty dictionary, which throw.
- MostFrequent.FindFrequent.AddWord, MostFrequent.FindFrequent.UpdateWords, Longest.FindLarge.AddWord and Shortest.FindSmall.AddWord: these require a bound word table (`wordFrequencies != null`). In the source, calling `AddWord` before `SetWordDict` throws a `NullReferenceException`, which the model does not capture.
- Character counting: C# `string.Length` and `foreach` over a string count UTF-16 code units, so a character outside the Basic Multilingual Plane counts as two characters, and as two `char` keys of the character table. A Dafny `char` is a Unicode scalar value, so the model counts such a character once. This affects WordCollection.WordCollectionData.AddString, Longest.Update and Shortest.Update (word length).
- Integer width: counts and counters are unbounded integers. The source's 32-bit `int` counters would wrap after 2^31 - 1 characters or words, which the model does not capture.

## Findings

| source | as written | input that shows it | evidently intended | confidence | as-written member | corrected member |
|---|---|---|---|---|---|---|
| Booster_WordStream/Controllers/WordStreamController.cs:91-104 | when the carried word plus the buffer ends in a space, `ProcessBuffer` returns the incoming `partial_word`, although that word has already been counted in the buffer's first word | the buffers "ee" then "aa ": the words counted are "eeaa", "" and, at the end of the stream, "ee" once more | nothing is carried on when the text ends in a space (the test at Booster_Tests/WordStream/Test_WordStreamController.cs:39 expects null), so the words counted are those of the whole text | not executed | Tokenizer.StreamStalePartialAsWritten | Tokenizer.StreamWordsSplitText |

The as-written carry-over is `Tokenizer.SplitBufferAsWritten`, with a single-buffer counterexample in
`Tokenizer.StalePartialAsWritten` and `Scenarios.CarriedNoLeftoverScenario`.
The corrected carry-over is `Tokenizer.SplitBuffer`, whose properties `Tokenizer.SplitBufferFacts` states.
The controller (`ProcessBuffer`, `ReadBuffers`, `ReadStream`, `StartStream`) follows the code as written:
its contracts are stated on `SplitBufferAsWritten`, `RunAsWritten` and `StreamWordsAsWritten`.
The corrected read loop is `Tokenizer.Run` and `Tokenizer.StreamWords`, proved to count the words of the
whole text by `Tokenizer.StreamWordsSplitText`. `Tokenizer.RunAsWrittenAgrees` shows that the two agree
whenever no buffer ends in a space.
