/**
  The string part of the stream controller's `ProcessBuffer`: splitting on `' '` the
  way `String.Split(' ')` does (every separator ends a segment, so empty segments
  appear between adjacent spaces and at both ends), and carrying the unfinished last
  word of a buffer over to the next one.
 */
module Tokenizer {

  datatype Option<T> = None | Some(value: T)

  /** `s` contains no space. */
  predicate NoSpace(s: string)
  {
    forall i :: 0 <= i < |s| ==> s[i] != ' '
  }

  /** `String.Split(' ')`: the segments between spaces; always at least one. */
  function Split(s: string): (r: seq<string>)
    ensures |r| >= 1
  {
    if s == [] then [""]
    else
      var rest := Split(s[1..]);
      if s[0] == ' ' then [""] + rest
      else [[s[0]] + rest[0]] + rest[1..]
  }

  /** `String.Join(" ", parts)`. */
  function Join(parts: seq<string>): string
    requires |parts| >= 1
  {
    if |parts| == 1 then parts[0] else parts[0] + " " + Join(parts[1..])
  }

  /** Joining the segments with single spaces gives back the string. */
  lemma {:induction false} JoinSplit(s: string)
    ensures Join(Split(s)) == s
  {
    if s != [] {
      var rest := Split(s[1..]);
      JoinSplit(s[1..]);
      assert [s[0]] + s[1..] == s;
      if s[0] == ' ' {
        assert ([""] + rest)[1..] == rest;
      } else {
        JoinCons([s[0]], rest);
      }
    }
  }

  /** Gluing a prefix onto the first segment prefixes the joined text. */
  lemma JoinCons(h: string, rest: seq<string>)
    requires |rest| >= 1
    ensures Join([h + rest[0]] + rest[1..]) == h + Join(rest)
  {
    var r := [h + rest[0]] + rest[1..];
    if |rest| > 1 {
      assert r[1..] == rest[1..];
      AppendAssoc(h, rest[0] + " ", Join(rest[1..]));
      AppendAssoc(h, rest[0], " ");
    }
  }

  /** Splitting the joined segments gives them back, when none holds a space. */
  lemma {:induction false} SplitJoin(parts: seq<string>)
    requires |parts| >= 1
    requires forall i :: 0 <= i < |parts| ==> NoSpace(parts[i])
    ensures Split(Join(parts)) == parts
  {
    if |parts| == 1 {
      SplitWord(parts[0]);
    } else {
      var t := " " + Join(parts[1..]);
      SplitJoin(parts[1..]);
      SplitWordThen(parts[0], t);
      assert t[1..] == Join(parts[1..]);
      assert parts[0] + " " + Join(parts[1..]) == parts[0] + t;
    }
  }

  /** A word without spaces is its own single segment. */
  lemma {:induction false} SplitWord(w: string)
    requires NoSpace(w)
    ensures Split(w) == [w]
  {
    if w != [] {
      SplitWord(w[1..]);
      assert [w[0]] + w[1..] == w;
    }
  }

  /** A word without spaces in front of a space is the first segment; the rest is split as before. */
  lemma {:induction false} SplitWordThen(w: string, t: string)
    requires NoSpace(w) && |t| > 0 && t[0] == ' '
    ensures Split(w + t) == [w] + Split(t)[1..]
  {
    if w == [] {
      assert w + t == t;
    } else {
      SplitWordThen(w[1..], t);
      assert (w + t)[1..] == w[1..] + t;
      assert [w[0]] + w[1..] == w;
    }
  }

  /** No segment holds a space. */
  lemma {:induction false} SplitNoSpace(s: string)
    ensures forall i :: 0 <= i < |Split(s)| ==> NoSpace(Split(s)[i])
  {
    if s != [] {
      var rest := Split(s[1..]);
      SplitNoSpace(s[1..]);
      if s[0] != ' ' {
        var h := [s[0]] + rest[0];
        assert NoSpace(rest[0]);
        assert NoSpace(h) by {
          forall j | 0 <= j < |h|
            ensures h[j] != ' '
          {
            if j > 0 {
              assert h[j] == rest[0][j - 1];
            }
          }
        }
        var r := [h] + rest[1..];
        assert forall i :: 1 <= i < |r| ==> r[i] == rest[i];
      }
    }
  }

  /** The last segment is empty exactly when the string is empty or ends in a space. */
  lemma {:induction false} SplitLast(s: string)
    ensures var r := Split(s);
      && (r[|r| - 1] == "" <==> s == [] || s[|s| - 1] == ' ')
      && (s != [] && s[|s| - 1] == ' ' ==> |r| >= 2)
  {
    if s != [] {
      var t := s[1..];
      SplitLast(t);
      if |s| == 1 {
        assert t == [] && Split(t) == [""];
      } else {
        assert s[|s| - 1] == t[|t| - 1];
      }
    }
  }

  /** The text of a buffer with the carried-over partial word in front of it. */
  function Combined(partial: Option<string>, chunk: string): string
  {
    (if partial.Some? then partial.value else "") + chunk
  }

  /**
    The words a buffer yields and the partial word it hands on, with the carry-over
    as `ProcessBuffer` evidently intends it: when the text ends in a space nothing is
    carried over.
   */
  function SplitBuffer(partial: Option<string>, chunk: string): (r: (seq<string>, Option<string>))
    requires |Combined(partial, chunk)| > 0
  {
    var text := Combined(partial, chunk);
    var parts := Split(text);
    if text[|text| - 1] != ' ' then (parts[..|parts| - 1], Some(parts[|parts| - 1]))
    else (parts, None)
  }

  /** `ProcessBuffer`'s carry-over as written: the incoming partial word is handed back when the text ends in a space. */
  function SplitBufferAsWritten(partial: Option<string>, chunk: string): (r: (seq<string>, Option<string>))
    requires |Combined(partial, chunk)| > 0
  {
    var text := Combined(partial, chunk);
    var parts := Split(text);
    if text[|text| - 1] != ' ' then (parts[..|parts| - 1], Some(parts[|parts| - 1]))
    else (parts, partial)
  }

  /** The words and the handed-on partial word, joined again. */
  function Rejoin(words: seq<string>, leftover: Option<string>): string
    requires leftover.Some? || |words| >= 1
  {
    if leftover.Some? then Join(words + [leftover.value]) else Join(words)
  }

  /**
    The buffer's text is split without loss: the words followed by the handed-on
    partial word, joined with single spaces, are exactly the text. No word and no
    partial word holds a space, a partial word is handed on exactly when the text
    does not end in a space, and it is never empty.
   */
  lemma SplitBufferFacts(partial: Option<string>, chunk: string)
    requires |Combined(partial, chunk)| > 0
    ensures var (words, leftover) := SplitBuffer(partial, chunk);
      var text := Combined(partial, chunk);
      && (leftover.Some? || |words| >= 1)
      && Rejoin(words, leftover) == text
      && (forall i :: 0 <= i < |words| ==> NoSpace(words[i]))
      && (leftover.Some? <==> text[|text| - 1] != ' ')
      && (leftover.Some? ==> NoSpace(leftover.value) && leftover.value != "")
  {
    var text := Combined(partial, chunk);
    var parts := Split(text);
    assert Join(parts) == text && (forall i :: 0 <= i < |parts| ==> NoSpace(parts[i]))
        && (parts[|parts| - 1] == "" <==> text[|text| - 1] == ' ') by {
      JoinSplit(text);
      SplitLast(text);
      SplitNoSpace(text);
    }
    CarryFacts(text, parts);
  }

  /** `SplitBufferFacts` for any segments that join to the text and hold no space. */
  lemma CarryFacts(text: string, parts: seq<string>)
    requires |text| > 0 && |parts| >= 1 && Join(parts) == text
    requires forall i :: 0 <= i < |parts| ==> NoSpace(parts[i])
    requires parts[|parts| - 1] == "" <==> text[|text| - 1] == ' '
    ensures text[|text| - 1] != ' ' ==>
      var (words, leftover) := (parts[..|parts| - 1], Some(parts[|parts| - 1]));
      && Rejoin(words, leftover) == text
      && (forall i :: 0 <= i < |words| ==> NoSpace(words[i]))
      && NoSpace(leftover.value) && leftover.value != ""
    ensures text[|text| - 1] == ' ' ==>
      Rejoin(parts, None) == text
  {
    if text[|text| - 1] != ' ' {
      InitLast(parts);
    }
  }

  /**
    The carry-over as written hands back a stale partial word: "ee" followed by the
    buffer "aa " yields the words "eeaa" and "", and then "ee" again instead of nothing.
   */
  lemma StalePartialAsWritten()
    ensures SplitBufferAsWritten(Some("ee"), "aa ") == (["eeaa", ""], Some("ee"))
    ensures SplitBuffer(Some("ee"), "aa ") == (["eeaa", ""], None)
  {
    var text := Combined(Some("ee"), "aa ");
    assert text == "eeaa ";
    TrailingSpaceText();
  }

  /** Two segment lists where the last segment of the first runs on into the first of the second. */
  function Glue(sx: seq<string>, sy: seq<string>): seq<string>
    requires |sx| >= 1 && |sy| >= 1
  {
    sx[..|sx| - 1] + [sx[|sx| - 1] + sy[0]] + sy[1..]
  }

  /** Splitting a concatenation: the segment where the two strings meet is glued together. */
  lemma {:induction false} SplitAppend(x: string, y: string)
    ensures Split(x + y) == Glue(Split(x), Split(y))
  {
    if x == [] {
      var sy := Split(y);
      assert x + y == y;
      GlueEmpty(sy);
    } else {
      SplitAppend(x[1..], y);
      HeadTail(x, y);
      SplitAppendCons(x[0], x[1..], y);
    }
  }

  /** A non-empty sequence is its head followed by its tail, also in front of another sequence. */
  lemma HeadTail<T>(x: seq<T>, y: seq<T>)
    requires |x| > 0
    ensures x == [x[0]] + x[1..] && x + y == [x[0]] + (x[1..] + y)
  {
  }

  /** Gluing to the single empty segment changes nothing. */
  lemma GlueEmpty(sy: seq<string>)
    requires |sy| >= 1
    ensures Glue([""], sy) == sy
  {
    assert [""][..0] == [];
    assert "" + sy[0] == sy[0];
    assert sy == [sy[0]] + sy[1..];
  }

  /** `Split` on a string with a first character: one step of its definition. */
  lemma SplitCons(c: char, t: string)
    ensures var rest := Split(t);
      Split([c] + t) == if c == ' ' then [""] + rest else [[c] + rest[0]] + rest[1..]
  {
    assert ([c] + t)[1..] == t;
  }

  /** Gluing after a leading empty segment. */
  lemma GlueEmptyFront(sx: seq<string>, sy: seq<string>)
    requires |sx| >= 1 && |sy| >= 1
    ensures Glue([""] + sx, sy) == [""] + Glue(sx, sy)
  {
    var A, g, B := sx[..|sx| - 1], sx[|sx| - 1] + sy[0], sy[1..];
    var sx' := [""] + sx;
    assert sx'[..|sx'| - 1] == [""] + A;
    assert sx'[|sx'| - 1] + sy[0] == g;
    assert ([""] + A) + [g] + B == [""] + (A + [g] + B);
  }

  /** Gluing after a character put in front of the first segment. */
  lemma GlueCharFront(c: char, sx: seq<string>, sy: seq<string>)
    requires |sx| >= 1 && |sy| >= 1
    ensures var r := Glue(sx, sy);
      Glue([[c] + sx[0]] + sx[1..], sy) == [[c] + r[0]] + r[1..]
  {
    var n := |sx|;
    var r := Glue(sx, sy);
    var A, g, B := sx[..n - 1], sx[n - 1] + sy[0], sy[1..];
    var h := [c] + sx[0];
    var sx' := [h] + sx[1..];
    if n == 1 {
      assert r == [g] + B;
      assert sx' == [h];
      assert Glue(sx', sy) == [h + sy[0]] + B;
      assert h + sy[0] == [c] + g;
    } else {
      var A' := sx[1..n - 1];
      assert r[0] == sx[0];
      assert r[1..] == A' + [g] + B;
      assert sx'[..|sx'| - 1] == [h] + A';
      assert sx'[|sx'| - 1] + sy[0] == g;
      assert ([h] + A') + [g] + B == [h] + (A' + [g] + B);
    }
  }

  /** The inductive step of `SplitAppend`: a character in front of the first string. */
  lemma SplitAppendCons(c: char, t: string, y: string)
    requires Split(t + y) == Glue(Split(t), Split(y))
    ensures Split([c] + (t + y)) == Glue(Split([c] + t), Split(y))
  {
    SplitCons(c, t);
    SplitCons(c, t + y);
    if c == ' ' {
      GlueEmptyFront(Split(t), Split(y));
    } else {
      GlueCharFront(c, Split(t), Split(y));
    }
  }

  /** The text of a stream of buffers. */
  function Concat(chunks: seq<string>): string
  {
    if chunks == [] then "" else Concat(chunks[..|chunks| - 1]) + chunks[|chunks| - 1]
  }

  /** Every buffer read carries text. */
  predicate AllNonEmpty(chunks: seq<string>)
  {
    forall i :: 0 <= i < |chunks| ==> |chunks[i]| > 0
  }

  /** The words handed to the collection and the partial word pending after reading `chunks`. */
  function Run(chunks: seq<string>): (r: (seq<string>, Option<string>))
    requires AllNonEmpty(chunks)
  {
    if chunks == [] then ([], None)
    else
      var (words, partial) := Run(chunks[..|chunks| - 1]);
      var (more, leftover) := SplitBuffer(partial, chunks[|chunks| - 1]);
      (words + more, leftover)
  }

  /** The pending partial word counts as one more word at the end of the stream, unless empty. */
  function Final(words: seq<string>, leftover: Option<string>): seq<string>
  {
    if leftover.Some? && leftover.value != "" then words + [leftover.value] else words
  }

  /** The end of the stream appends at most the pending word. */
  lemma FinalAppend(words: seq<string>, leftover: Option<string>)
    ensures Final(words, leftover) == words + Final([], leftover)
  {
    var none: seq<string> := [];
    assert words + none == words;
  }

  /** Every word the collection receives from reading `chunks` to the end, in order. */
  function StreamWords(chunks: seq<string>): seq<string>
    requires AllNonEmpty(chunks)
  {
    var (words, leftover) := Run(chunks);
    Final(words, leftover)
  }

  /**
    The states of the read loop over `chunks`, with the carry-over as written: for
    each number of buffers read, the words handed on, the pending partial word and
    the text read so far.
   */
  ghost predicate IsReadTrace(chunks: seq<string>, trace: seq<(seq<string>, Option<string>, string)>)
  {
    && |trace| == |chunks| + 1
    && trace[0] == ([], None, "")
    && forall k :: 0 <= k < |chunks| ==>
         && |Combined(trace[k].1, chunks[k])| > 0
         && trace[k + 1] == (trace[k].0 + SplitBufferAsWritten(trace[k].1, chunks[k]).0,
                             SplitBufferAsWritten(trace[k].1, chunks[k]).1, trace[k].2 + chunks[k])
  }

  /** Every stream of non-empty buffers has its read trace. */
  lemma ReadTraceExists(chunks: seq<string>) returns (trace: seq<(seq<string>, Option<string>, string)>)
    requires AllNonEmpty(chunks)
    ensures IsReadTrace(chunks, trace)
  {
    trace := seq(|chunks| + 1, k requires 0 <= k <= |chunks| =>
                   (RunAsWritten(chunks[..k]).0, RunAsWritten(chunks[..k]).1, Concat(chunks[..k])));
    forall k | 0 <= k < |chunks|
      ensures && |Combined(trace[k].1, chunks[k])| > 0
              && trace[k + 1] == (trace[k].0 + SplitBufferAsWritten(trace[k].1, chunks[k]).0,
                                  SplitBufferAsWritten(trace[k].1, chunks[k]).1, trace[k].2 + chunks[k])
    {
      RunAsWrittenNext(chunks, k);
    }
  }

  /** The read trace is `RunAsWritten` and `Concat` of the prefixes. */
  lemma {:induction false} ReadTraceRun(chunks: seq<string>, trace: seq<(seq<string>, Option<string>, string)>, k: nat)
    requires AllNonEmpty(chunks) && IsReadTrace(chunks, trace) && k <= |chunks|
    ensures AllNonEmpty(chunks[..k])
    ensures trace[k] == (RunAsWritten(chunks[..k]).0, RunAsWritten(chunks[..k]).1, Concat(chunks[..k]))
  {
    if k == 0 {
      assert chunks[..0] == [];
    } else {
      ReadTraceRun(chunks, trace, k - 1);
      RunAsWrittenNext(chunks, k - 1);
    }
  }

  /** Reading one buffer more: `Run` and `Concat` on a prefix one longer. */
  lemma RunNext(chunks: seq<string>, i: nat)
    requires AllNonEmpty(chunks) && i < |chunks|
    ensures AllNonEmpty(chunks[..i]) && AllNonEmpty(chunks[..i + 1])
    ensures Run(chunks[..i + 1]).0 == Run(chunks[..i]).0 + SplitBuffer(Run(chunks[..i]).1, chunks[i]).0
    ensures Run(chunks[..i + 1]).1 == SplitBuffer(Run(chunks[..i]).1, chunks[i]).1
    ensures Concat(chunks[..i + 1]) == Concat(chunks[..i]) + chunks[i]
  {
    assert chunks[..i + 1][..i] == chunks[..i];
  }

  /** Reading one buffer more: `RunAsWritten` and `Concat` on a prefix one longer. */
  lemma RunAsWrittenNext(chunks: seq<string>, i: nat)
    requires AllNonEmpty(chunks) && i < |chunks|
    ensures AllNonEmpty(chunks[..i]) && AllNonEmpty(chunks[..i + 1])
    ensures RunAsWritten(chunks[..i + 1]).0
      == RunAsWritten(chunks[..i]).0 + SplitBufferAsWritten(RunAsWritten(chunks[..i]).1, chunks[i]).0
    ensures RunAsWritten(chunks[..i + 1]).1 == SplitBufferAsWritten(RunAsWritten(chunks[..i]).1, chunks[i]).1
    ensures Concat(chunks[..i + 1]) == Concat(chunks[..i]) + chunks[i]
  {
    assert chunks[..i + 1][..i] == chunks[..i];
  }

  /**
    The carry-over as written yields the same words as the corrected one, and hands
    on the same partial word unless the text ends in a space after a carried word;
    then it hands back that carried word.
   */
  lemma AsWrittenAgrees(partial: Option<string>, chunk: string)
    requires |Combined(partial, chunk)| > 0
    ensures SplitBufferAsWritten(partial, chunk).0 == SplitBuffer(partial, chunk).0
    ensures var text := Combined(partial, chunk);
      SplitBufferAsWritten(partial, chunk).1
        == if text[|text| - 1] == ' ' then partial else SplitBuffer(partial, chunk).1
  {
  }

  /** `Run` with the carry-over as written. */
  function RunAsWritten(chunks: seq<string>): (r: (seq<string>, Option<string>))
    requires AllNonEmpty(chunks)
  {
    if chunks == [] then ([], None)
    else
      var (words, partial) := RunAsWritten(chunks[..|chunks| - 1]);
      var (more, leftover) := SplitBufferAsWritten(partial, chunks[|chunks| - 1]);
      (words + more, leftover)
  }

  /** No buffer ends in a space. */
  predicate NoTrailingSpace(chunks: seq<string>)
    requires AllNonEmpty(chunks)
  {
    forall i :: 0 <= i < |chunks| ==> chunks[i][|chunks[i]| - 1] != ' '
  }

  /**
    The carry-over as written goes wrong only at a buffer ending in a space: when no
    buffer does, it reads the stream exactly as the corrected one, so the stream's
    words are then the words of its whole text.
   */
  lemma {:induction false} RunAsWrittenAgrees(chunks: seq<string>)
    requires AllNonEmpty(chunks) && NoTrailingSpace(chunks)
    ensures RunAsWritten(chunks) == Run(chunks)
    ensures StreamWordsAsWritten(chunks) == StreamWords(chunks)
    ensures NonEmpty(StreamWordsAsWritten(chunks)) == NonEmpty(Split(Concat(chunks)))
  {
    if chunks != [] {
      var n := |chunks| - 1;
      var init := chunks[..n];
      assert AllNonEmpty(init) && NoTrailingSpace(init) by {
        forall i | 0 <= i < |init|
          ensures |init[i]| > 0 && init[i][|init[i]| - 1] != ' '
        {
          assert init[i] == chunks[i];
        }
      }
      RunAsWrittenAgrees(init);
      var partial := Run(init).1;
      var text := Combined(partial, chunks[n]);
      assert text[|text| - 1] == chunks[n][|chunks[n]| - 1];
      AsWrittenAgrees(partial, chunks[n]);
    }
    StreamWordsSplitText(chunks);
  }

  /** `StreamWords` with the carry-over as written. */
  function StreamWordsAsWritten(chunks: seq<string>): seq<string>
    requires AllNonEmpty(chunks)
  {
    var (words, leftover) := RunAsWritten(chunks);
    Final(words, leftover)
  }

  /** The non-empty entries of a word list, in order. */
  function NonEmpty(ws: seq<string>): (r: seq<string>)
    ensures |r| <= |ws|
    ensures forall i :: 0 <= i < |r| ==> r[i] != ""
  {
    if ws == [] then []
    else NonEmpty(ws[..|ws| - 1]) + (if ws[|ws| - 1] == "" then [] else [ws[|ws| - 1]])
  }

  lemma {:induction false} NonEmptyAppend(a: seq<string>, b: seq<string>)
    ensures NonEmpty(a + b) == NonEmpty(a) + NonEmpty(b)
  {
    if b == [] {
      assert a + b == a;
    } else {
      var b' := b[..|b| - 1];
      assert (a + b)[..|a + b| - 1] == a + b';
      NonEmptyAppend(a, b');
    }
  }

  function Pending(partial: Option<string>): string
  {
    if partial.Some? then partial.value else ""
  }

  /** Text appended after the last segment only changes the segments from there on. */
  lemma SplitExtend(text: string, c: string)
    ensures var s := Split(text);
      Split(text + c) == s[..|s| - 1] + Split(s[|s| - 1] + c)
  {
    var s, t := Split(text), Split(c);
    var lo := s[|s| - 1];
    assert Split(lo + c) == [lo + t[0]] + t[1..] by {
      SplitAppend(lo, c);
      SplitNoSpace(text);
      SplitWord(lo);
      GlueSingle(lo, t);
    }
    assert Split(text + c) == s[..|s| - 1] + ([lo + t[0]] + t[1..]) by {
      SplitAppend(text, c);
      AppendAssoc(s[..|s| - 1], [lo + t[0]], t[1..]);
    }
  }

  lemma AppendAssoc<T>(a: seq<T>, b: seq<T>, c: seq<T>)
    ensures a + b + c == a + (b + c)
  {
  }

  lemma GlueSingle(w: string, t: seq<string>)
    requires |t| >= 1
    ensures Glue([w], t) == [w + t[0]] + t[1..]
  {
    assert [w][..0] == [];
  }

  /** All but the last element of a concatenation, and its last element. */
  lemma InitLast<T>(x: seq<T>)
    requires |x| >= 1
    ensures x[..|x| - 1] + [x[|x| - 1]] == x
  {
  }

  lemma InitAppend<T>(a: seq<T>, b: seq<T>)
    requires |b| >= 1
    ensures (a + b)[..|a + b| - 1] == a + b[..|b| - 1]
    ensures (a + b)[|a + b| - 1] == b[|b| - 1]
  {
  }

  /** Words that agree up to empty ones still agree after appending words that agree. */
  lemma NonEmptyStep(words: seq<string>, more: seq<string>, si: seq<string>, p: seq<string>)
    requires |p| >= 1
    requires NonEmpty(words) == NonEmpty(si) && NonEmpty(more) == NonEmpty(p[..|p| - 1])
    ensures NonEmpty(words + more) == NonEmpty((si + p)[..|si + p| - 1])
  {
    InitAppend(si, p);
    NonEmptyAppend(words, more);
    NonEmptyAppend(si, p[..|p| - 1]);
  }

  /** Up to empty words, a buffer yields the segments of its text but the last, and hands on the last. */
  lemma SplitBufferPending(partial: Option<string>, chunk: string)
    requires |Combined(partial, chunk)| > 0
    ensures var p := Split(Combined(partial, chunk));
      && NonEmpty(SplitBuffer(partial, chunk).0) == NonEmpty(p[..|p| - 1])
      && Pending(SplitBuffer(partial, chunk).1) == p[|p| - 1]
  {
    var text := Combined(partial, chunk);
    var p := Split(text);
    var pi := p[..|p| - 1];
    SplitLast(text);
    if text[|text| - 1] == ' ' {
      assert p == pi + [""];
      NonEmptyAppend(pi, [""]);
      assert NonEmpty([""]) == [];
    }
  }

  /**
    One buffer more: if the partial word pending before it is the last segment of the
    text so far, the buffer's words and its partial word extend the segments of the
    longer text in the same way.
   */
  lemma RunStep(words: seq<string>, partial: Option<string>, c: string, s: seq<string>, whole: seq<string>)
    requires |c| > 0 && |s| >= 1
    requires Pending(partial) == s[|s| - 1] && NonEmpty(words) == NonEmpty(s[..|s| - 1])
    requires whole == s[..|s| - 1] + Split(s[|s| - 1] + c)
    ensures && Pending(SplitBuffer(partial, c).1) == whole[|whole| - 1]
      && NonEmpty(words + SplitBuffer(partial, c).0) == NonEmpty(whole[..|whole| - 1])
  {
    assert Combined(partial, c) == s[|s| - 1] + c;
    SplitBufferPending(partial, c);
    StepParts(words, SplitBuffer(partial, c).0, SplitBuffer(partial, c).1, s[..|s| - 1], Split(Combined(partial, c)), whole);
  }

  /** `RunStep` on the pieces, with the splitting already done. */
  lemma StepParts(words: seq<string>, more: seq<string>, leftover: Option<string>, si: seq<string>, p: seq<string>,
                  whole: seq<string>)
    requires |p| >= 1 && whole == si + p
    requires NonEmpty(words) == NonEmpty(si)
    requires NonEmpty(more) == NonEmpty(p[..|p| - 1]) && Pending(leftover) == p[|p| - 1]
    ensures && Pending(leftover) == whole[|whole| - 1]
      && NonEmpty(words + more) == NonEmpty(whole[..|whole| - 1])
  {
    InitAppend(si, p);
    NonEmptyStep(words, more, si, p);
  }

  /**
    After any number of buffers, the pending partial word is the last segment of the
    text read so far, and the words handed on are, up to empty ones, the segments
    before it.
   */
  lemma {:induction false} RunSplitsText(chunks: seq<string>)
    requires AllNonEmpty(chunks)
    ensures var s := Split(Concat(chunks));
      && Pending(Run(chunks).1) == s[|s| - 1]
      && NonEmpty(Run(chunks).0) == NonEmpty(s[..|s| - 1])
  {
    if chunks != [] {
      var n := |chunks| - 1;
      RunNext(chunks, n);
      assert chunks[..n + 1] == chunks;
      RunSplitsText(chunks[..n]);
      var text, c := Concat(chunks[..n]), chunks[n];
      var s := Split(text);
      assert Split(Concat(chunks)) == s[..|s| - 1] + Split(s[|s| - 1] + c) by {
        SplitExtend(text, c);
      }
      RunStep(Run(chunks[..n]).0, Run(chunks[..n]).1, c, s, Split(Concat(chunks)));
    }
  }

  /** Handing on the pending word at the end completes the segments, up to empty ones. */
  lemma FinalSplitsText(words: seq<string>, partial: Option<string>, s: seq<string>)
    requires |s| >= 1
    requires Pending(partial) == s[|s| - 1] && NonEmpty(words) == NonEmpty(s[..|s| - 1])
    ensures NonEmpty(Final(words, partial)) == NonEmpty(s)
  {
    var lastSeg := s[|s| - 1];
    assert s == s[..|s| - 1] + [lastSeg];
    NonEmptyAppend(s[..|s| - 1], [lastSeg]);
    if partial.Some? && partial.value != "" {
      NonEmptyAppend(words, [partial.value]);
    } else {
      assert NonEmpty([lastSeg]) == [];
    }
  }

  /**
    The words of the stream do not depend on how the text is cut into buffers: up to
    empty words, they are the segments of the whole text between spaces.
   */
  lemma StreamWordsSplitText(chunks: seq<string>)
    requires AllNonEmpty(chunks)
    ensures NonEmpty(StreamWords(chunks)) == NonEmpty(Split(Concat(chunks)))
  {
    RunSplitsText(chunks);
    FinalSplitsText(Run(chunks).0, Run(chunks).1, Split(Concat(chunks)));
  }

  /**
    With the carry-over as written, the buffers "ee" and "aa " yield the words "eeaa",
    "" and then "ee" once more, although the text "eeaa " holds the one word "eeaa".
   */
  lemma StreamStalePartialAsWritten()
    ensures var chunks := ["ee", "aa "];
      && StreamWordsAsWritten(chunks) == ["eeaa", "", "ee"]
      && NonEmpty(Split(Concat(chunks))) == ["eeaa"]
      && StreamWords(chunks) == ["eeaa", ""]
  {
    SecondBuffer();
    StreamText();
  }

  /** After the second buffer "aa ": the words "eeaa" and "", with "ee" or nothing pending. */
  lemma SecondBuffer()
    ensures RunAsWritten(["ee", "aa "]) == (["eeaa", ""], Some("ee"))
    ensures Run(["ee", "aa "]) == (["eeaa", ""], None)
  {
    var chunks := ["ee", "aa "];
    assert chunks[..1] == ["ee"];
    FirstBuffer();
    StalePartialAsWritten();
    var none: seq<string> := [];
    assert none + ["eeaa", ""] == ["eeaa", ""];
  }

  /** The text of the two buffers holds the one word "eeaa". */
  lemma StreamText()
    ensures Concat(["ee", "aa "]) == "eeaa "
    ensures NonEmpty(Split("eeaa ")) == ["eeaa"]
  {
    var chunks := ["ee", "aa "];
    assert Concat(["ee"]) == "ee" by {
      assert ["ee"][..0] == [];
    }
    assert Concat(chunks) == "eeaa " by {
      assert chunks[..1] == ["ee"];
    }
    TrailingSpaceText();
  }

  /** "eeaa " splits into "eeaa" and a trailing empty segment. */
  lemma TrailingSpaceText()
    ensures Split("eeaa ") == ["eeaa", ""]
    ensures NonEmpty(["eeaa", ""]) == ["eeaa"]
  {
    assert Split(" ") == ["", ""] by {
      SplitCons(' ', "");
      assert [' '] + "" == " ";
    }
    assert Split("eeaa ") == ["eeaa"] + Split(" ")[1..] by {
      assert NoSpace("eeaa");
      SplitWordThen("eeaa", " ");
      assert "eeaa" + " " == "eeaa ";
    }
  }

  /** The first buffer "ee" yields no word and hands on "ee", either way. */
  lemma FirstBuffer()
    ensures RunAsWritten(["ee"]) == ([], Some("ee"))
    ensures Run(["ee"]) == ([], Some("ee"))
  {
    assert ["ee"][..0] == [];
    assert Split("ee") == ["ee"] by {
      SplitWord("ee");
    }
    assert Combined(None, "ee") == "ee";
    assert SplitBuffer(None, "ee") == ([], Some("ee"));
    assert SplitBufferAsWritten(None, "ee") == ([], Some("ee"));
    var none: seq<string> := [];
    assert RunAsWritten(none) == (none, None);
    assert none + none == none;
  }
}
