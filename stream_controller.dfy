/**
  The stream controller (`WordStreamController`): a three-state machine around a
  read loop that hands each decoded buffer to the word collection, character by
  character and split into words, carrying an unfinished last word over to the
  next buffer and recording it as a word once the stream ends.

  The read loop runs synchronously over a finite sequence of decoded buffers.
 */
module StreamControl {
  import opened FrequencyTable
  import opened Tokenizer
  import opened WordCollection

  /** `StreamState`. */
  datatype StreamState = Off | Stopped | Running

  class WordStreamController {
    var streamState: StreamState
    const streamData: WordCollectionData

    /** The collection is valid and the controller is not one of the objects it updates. */
    ghost predicate Valid()
      reads this, streamData, streamData.frequencyWord, streamData.Repr
    {
      streamData.Valid() && this !in streamData.Repr
    }

    constructor (wordCollection: WordCollectionData)
      requires wordCollection.Valid()
      ensures Valid() && streamState == Off && streamData == wordCollection
    {
      streamState := Off;
      streamData := wordCollection;
    }

    /**
      Reads every buffer of the stream, then records the pending partial word, if
      any and not empty, as one more word and stops. Does nothing while running.
     */
    method StartStream(chunks: seq<string>)
      requires Valid() && AllNonEmpty(chunks)
      modifies this, streamData, streamData.frequencyWord, streamData.Repr
      ensures Valid() && streamData.Repr == old(streamData.Repr) && streamState != Off
      ensures old(streamState) == Running ==>
        && streamState == Running
        && unchanged(streamData, streamData.frequencyWord) && unchanged(streamData.Repr)
      ensures old(streamState) != Running ==>
        var words := StreamWordsAsWritten(chunks);
        && streamState == Stopped
        && streamData.numChars == old(streamData.numChars) + |Concat(chunks)|
        && streamData.frequencyChar == AddChars(old(streamData.frequencyChar), Concat(chunks))
        && streamData.numWords == old(streamData.numWords) + |words|
        && streamData.frequencyWord.counts == Table(old(streamData.frequencyWord.counts), streamData.ignoreWordCase, words)
        && (forall s :: s in old(streamData.statTypes) ==>
              StatView(s) == FeedAll(old(StatView(s)), StatMax(s), old(streamData.frequencyWord.counts),
                                     streamData.ignoreWordCase, words))
        && streamData.ignoreWordCase == old(streamData.ignoreWordCase)
        && streamData.statTypes == old(streamData.statTypes)
    {
      if streamState == Running {
        return;
      }
      streamState := Running;
      ReadStream(chunks);
      streamState := Stopped;
    }

    /** What `StartStream` does while running: reads every buffer, then ends the stream. */
    method ReadStream(chunks: seq<string>)
      requires Valid() && AllNonEmpty(chunks)
      modifies streamData, streamData.frequencyWord, streamData.Repr
      ensures Valid() && streamData.Repr == old(streamData.Repr) && streamState == old(streamState)
      ensures var words := StreamWordsAsWritten(chunks);
        && streamData.numChars == old(streamData.numChars) + |Concat(chunks)|
        && streamData.frequencyChar == AddChars(old(streamData.frequencyChar), Concat(chunks))
        && streamData.numWords == old(streamData.numWords) + |words|
        && streamData.frequencyWord.counts == Table(old(streamData.frequencyWord.counts), streamData.ignoreWordCase, words)
        && (forall s :: s in old(streamData.statTypes) ==>
              StatView(s) == FeedAll(old(StatView(s)), StatMax(s), old(streamData.frequencyWord.counts),
                                     streamData.ignoreWordCase, words))
        && streamData.ignoreWordCase == old(streamData.ignoreWordCase)
        && streamData.statTypes == old(streamData.statTypes)
    {
      var leftovers := ReadBuffers(chunks);
      ghost var read := RunAsWritten(chunks).0;
      EndOfStream(leftovers);
      FinalAppend(read, leftovers);
      TableAppend(old(streamData.frequencyWord.counts), streamData.ignoreWordCase, read, Final([], leftovers));
      forall s | s in old(streamData.statTypes)
        ensures StatView(s) == FeedAll(old(StatView(s)), StatMax(s), old(streamData.frequencyWord.counts),
                                       streamData.ignoreWordCase, StreamWordsAsWritten(chunks))
      {
        FeedAllAppend(old(StatView(s)), StatMax(s), old(streamData.frequencyWord.counts),
                      streamData.ignoreWordCase, read, Final([], leftovers));
      }
    }

    /** The read loop of `StartStream`: every buffer through `ProcessBuffer`, in order. */
    method ReadBuffers(chunks: seq<string>) returns (leftovers: Option<string>)
      requires Valid() && AllNonEmpty(chunks)
      modifies streamData, streamData.frequencyWord, streamData.Repr
      ensures Valid() && streamData.Repr == old(streamData.Repr) && streamState == old(streamState)
      ensures leftovers == RunAsWritten(chunks).1
      ensures var words := RunAsWritten(chunks).0;
        && streamData.numChars == old(streamData.numChars) + |Concat(chunks)|
        && streamData.frequencyChar == AddChars(old(streamData.frequencyChar), Concat(chunks))
        && streamData.numWords == old(streamData.numWords) + |words|
        && streamData.frequencyWord.counts == Table(old(streamData.frequencyWord.counts), streamData.ignoreWordCase, words)
        && (forall s :: s in old(streamData.statTypes) ==>
              StatView(s) == FeedAll(old(StatView(s)), StatMax(s), old(streamData.frequencyWord.counts),
                                     streamData.ignoreWordCase, words))
        && streamData.ignoreWordCase == old(streamData.ignoreWordCase)
        && streamData.statTypes == old(streamData.statTypes)
    {
      ghost var trace := ReadTraceExists(chunks);
      ghost var chars0, counts0, ig := streamData.frequencyChar, streamData.frequencyWord.counts, streamData.ignoreWordCase;
      ghost var words: seq<string> := [];
      ghost var text := "";
      leftovers := None;
      var i := 0;
      while i < |chunks|
        invariant 0 <= i <= |chunks| && streamState == old(streamState)
        invariant Valid() && streamData.Repr == old(streamData.Repr)
        invariant trace[i] == (words, leftovers, text)
        invariant streamData.numChars == old(streamData.numChars) + |text|
        invariant streamData.frequencyChar == AddChars(chars0, text)
        invariant streamData.numWords == old(streamData.numWords) + |words|
        invariant streamData.frequencyWord.counts == Table(counts0, ig, words)
        invariant forall s :: s in old(streamData.statTypes) ==>
          StatView(s) == FeedAll(old(StatView(s)), StatMax(s), counts0, ig, words)
        invariant streamData.ignoreWordCase == ig
        invariant streamData.statTypes == old(streamData.statTypes)
      {
        ghost var more := SplitBufferAsWritten(leftovers, chunks[i]).0;
        label Before:
        leftovers := ProcessBuffer(chunks[i], leftovers);
        AddCharsAppend(chars0, text, chunks[i]);
        TableAppend(counts0, ig, words, more);
        forall s | s in old(streamData.statTypes)
          ensures StatView(s) == FeedAll(old(StatView(s)), StatMax(s), counts0, ig, words + more)
        {
          FeedAllStep(old(StatView(s)), old@Before(StatView(s)), StatView(s), StatMax(s), counts0,
                      old@Before(streamData.frequencyWord.counts), ig, words, more);
        }
        words, text := words + more, text + chunks[i];
        i := i + 1;
      }
      ReadTraceRun(chunks, trace, i);
      assert chunks[..i] == chunks;
    }

    /** The end of the stream: a non-empty partial word is recorded as one more word. */
    method EndOfStream(partial: Option<string>)
      requires Valid()
      modifies streamData, streamData.frequencyWord, streamData.Repr
      ensures Valid() && streamData.Repr == old(streamData.Repr) && streamState == old(streamState)
      ensures var words := Final([], partial);
        && streamData.numChars == old(streamData.numChars)
        && streamData.frequencyChar == old(streamData.frequencyChar)
        && streamData.numWords == old(streamData.numWords) + |words|
        && streamData.frequencyWord.counts == Table(old(streamData.frequencyWord.counts), streamData.ignoreWordCase, words)
        && (forall s :: s in old(streamData.statTypes) ==>
              StatView(s) == FeedAll(old(StatView(s)), StatMax(s), old(streamData.frequencyWord.counts),
                                     streamData.ignoreWordCase, words))
        && streamData.ignoreWordCase == old(streamData.ignoreWordCase)
        && streamData.statTypes == old(streamData.statTypes)
    {
      var none: seq<string> := [];
      if partial.Some? && partial.value != "" {
        streamData.AddWord(partial.value);
        assert Final(none, partial) == [partial.value];
        TableNext(old(streamData.frequencyWord.counts), streamData.ignoreWordCase, none, partial.value);
      }
    }

    /** Stops a running stream: true exactly when it was running. */
    method StopStream() returns (stopped: bool)
      requires Valid()
      modifies this
      ensures Valid()
      ensures stopped <==> old(streamState) == Running
      ensures streamState == if stopped then Stopped else old(streamState)
      ensures old(streamState) != Off ==> streamState != Off
    {
      if streamState != Running {
        return false;
      }
      streamState := Stopped;
      return true;
    }

    /** The current state. */
    function GetStreamState(): StreamState
      reads this
    {
      streamState
    }

    /**
      Counts the characters of the buffer (without the carried partial word), then
      counts the words of the partial word followed by the buffer and hands on the
      new partial word, as `SplitBufferAsWritten` defines them: when the text ends
      in a space, the carried partial word itself is handed back.
     */
    method ProcessBuffer(bufferStr: string, partialWord: Option<string>) returns (leftover: Option<string>)
      requires Valid() && |Combined(partialWord, bufferStr)| > 0
      modifies streamData, streamData.frequencyWord, streamData.Repr
      ensures Valid() && streamData.Repr == old(streamData.Repr) && streamState == old(streamState)
      ensures leftover == SplitBufferAsWritten(partialWord, bufferStr).1
      ensures var words := SplitBufferAsWritten(partialWord, bufferStr).0;
        && streamData.numChars == old(streamData.numChars) + |bufferStr|
        && streamData.frequencyChar == AddChars(old(streamData.frequencyChar), bufferStr)
        && streamData.numWords == old(streamData.numWords) + |words|
        && streamData.frequencyWord.counts == Table(old(streamData.frequencyWord.counts), streamData.ignoreWordCase, words)
        && (forall s :: s in old(streamData.statTypes) ==>
              StatView(s) == FeedAll(old(StatView(s)), StatMax(s), old(streamData.frequencyWord.counts),
                                     streamData.ignoreWordCase, words))
        && streamData.ignoreWordCase == old(streamData.ignoreWordCase)
        && streamData.statTypes == old(streamData.statTypes)
    {
      streamData.AddString(bufferStr);
      var text := (if partialWord.Some? then partialWord.value else "") + bufferStr;
      var wordData := Split(text);
      var partial := partialWord;
      if text[|text| - 1] != ' ' {
        partial := Some(wordData[|wordData| - 1]);
        wordData := wordData[..|wordData| - 1];
      }
      assert (wordData, partial) == SplitBufferAsWritten(partialWord, bufferStr);
      streamData.AddWords(wordData);
      return partial;
    }
  }
}
