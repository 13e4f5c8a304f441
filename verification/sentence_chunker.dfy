/** The sentence-based chunker of utils/textUtils.ts: the text is cut into
    sentence runs (the matches of the global regex `[^.!?]+[.!?]*`), which are packed
    greedily into chunks of at most `MaxChunkLength` characters; a sentence
    longer than that is hard-cut into slices of exactly `MaxChunkLength`. */
module SentenceChunker {
  import opened Common

  const MaxChunkLength: nat := 4500

  predicate IsTerminator(c: char)
  {
    c == '.' || c == '!' || c == '?'
  }

  /** The end of the run of terminators (`terminators`) or of non-terminators
      (`!terminators`) that starts at index `i`. */
  function RunEnd(s: string, i: nat, terminators: bool): (j: nat)
    requires i <= |s|
    ensures i <= j <= |s|
    ensures forall k :: i <= k < j ==> IsTerminator(s[k]) == terminators
    ensures j < |s| ==> IsTerminator(s[j]) != terminators
    decreases |s| - i
  {
    if i < |s| && IsTerminator(s[i]) == terminators then RunEnd(s, i + 1, terminators) else i
  }

  /** One match of `[^.!?]+[.!?]*`: a non-terminator first, and once a
      terminator occurs, only terminators. */
  predicate IsSentenceRun(x: string)
  {
    && |x| > 0
    && !IsTerminator(x[0])
    && forall i, j :: 0 <= i < j < |x| && IsTerminator(x[i]) ==> IsTerminator(x[j])
  }

  /** The text the regex matches cover: everything after the leading terminators. */
  function DropLeadingTerminators(s: string): string
  {
    s[RunEnd(s, 0, true)..]
  }

  predicate HasNonTerminator(s: string)
  {
    exists i :: 0 <= i < |s| && !IsTerminator(s[i])
  }

  /** Where the match that starts at the non-terminator `s[i]` ends. */
  function MatchEnd(s: string, i: nat): (e: nat)
    requires i < |s| && !IsTerminator(s[i])
    ensures i < e <= |s|
  {
    RunEnd(s, RunEnd(s, i, false), true)
  }

  /** The matches of `[^.!?]+[.!?]*` in `s` from index `i` on: skip
      terminators, then take non-terminators followed by terminators, as often
      as the text allows. */
  function SentenceRunsFrom(s: string, i: nat): (r: seq<string>)
    requires i <= |s|
    ensures forall j :: 0 <= j < |r| ==> |r[j]| > 0
    decreases |s| - i
  {
    if i == |s| then []
    else if IsTerminator(s[i]) then SentenceRunsFrom(s, i + 1)
    else
      var e := MatchEnd(s, i);
      [s[i..e]] + SentenceRunsFrom(s, e)
  }

  /** The global match of the sentence regex over the whole text, with no
      match as the empty sequence: no match is empty, and `SentenceRunsCover`,
      `SentenceRunsShape` and `SentenceRunsEmpty` state which they are. */
  function SentenceRuns(s: string): (r: seq<string>)
    ensures forall j :: 0 <= j < |r| ==> |r[j]| > 0
  {
    SentenceRunsFrom(s, 0)
  }

  /** The match that starts at a non-terminator is a sentence run; the text
      after it starts with a non-terminator, and when there is such text the
      match ends in a terminator. */
  lemma FirstRun(s: string, i: nat)
    requires i < |s| && !IsTerminator(s[i])
    ensures IsSentenceRun(s[i..MatchEnd(s, i)])
    ensures MatchEnd(s, i) < |s| ==> !IsTerminator(s[MatchEnd(s, i)]) && IsTerminator(s[MatchEnd(s, i) - 1])
  {
    var m := RunEnd(s, i, false);
    var e := MatchEnd(s, i);
    var x := s[i..e];
    forall a, b | 0 <= a < b < |x| && IsTerminator(x[a]) ensures IsTerminator(x[b]) {
      assert x[a] == s[i + a] && x[b] == s[i + b];
    }
    if e < |s| {
      assert m < |s|;
    }
  }

  /** The runs from `i` on cover the text after the terminators at `i`, in order. */
  lemma {:induction false} RunsCover(s: string, i: nat)
    requires i <= |s|
    ensures Flatten(SentenceRunsFrom(s, i)) == s[RunEnd(s, i, true)..]
    decreases |s| - i
  {
    if i == |s| {
    } else if IsTerminator(s[i]) {
      RunsCover(s, i + 1);
    } else {
      var e := MatchEnd(s, i);
      RunsCover(s, e);
      FirstRun(s, i);
      CoverStep(s, i, e);
    }
  }

  /** One step of `RunsCover`: the first match followed by what the later
      matches cover. */
  lemma CoverStep(s: string, i: nat, e: nat)
    requires i < |s| && !IsTerminator(s[i]) && e == MatchEnd(s, i)
    requires e < |s| ==> !IsTerminator(s[e])
    requires Flatten(SentenceRunsFrom(s, e)) == s[RunEnd(s, e, true)..]
    ensures Flatten(SentenceRunsFrom(s, i)) == s[RunEnd(s, i, true)..]
  {
    assert RunEnd(s, e, true) == e;
    assert RunEnd(s, i, true) == i;
    assert SentenceRunsFrom(s, i) == [s[i..e]] + SentenceRunsFrom(s, e);
    FlattenCons(s[i..e], SentenceRunsFrom(s, e));
    assert s[i..e] + s[e..] == s[i..];
  }

  /** The runs cover the text after its leading terminators, in order. */
  lemma SentenceRunsCover(s: string)
    ensures Flatten(SentenceRuns(s)) == DropLeadingTerminators(s)
  {
    RunsCover(s, 0);
  }

  /** Every element of `runs` is one match; every one but the last ends in a
      terminator. */
  predicate RunsShaped(runs: seq<string>)
  {
    && (forall k :: 0 <= k < |runs| ==> IsSentenceRun(runs[k]))
    && (forall k :: 0 <= k < |runs| - 1 ==> IsTerminator(runs[k][|runs[k]| - 1]))
  }

  lemma RunsShapedCons(x: string, rest: seq<string>)
    requires IsSentenceRun(x) && RunsShaped(rest)
    requires rest != [] ==> IsTerminator(x[|x| - 1])
    ensures RunsShaped([x] + rest)
  {
    var r := [x] + rest;
    forall k | 0 < k < |r| ensures r[k] == rest[k - 1] {
    }
  }

  lemma {:induction false} RunsShape(s: string, i: nat)
    requires i <= |s|
    ensures RunsShaped(SentenceRunsFrom(s, i))
    decreases |s| - i
  {
    if i == |s| {
    } else if IsTerminator(s[i]) {
      RunsShape(s, i + 1);
    } else {
      var e := MatchEnd(s, i);
      RunsShape(s, e);
      FirstRun(s, i);
      var rest := SentenceRunsFrom(s, e);
      assert SentenceRunsFrom(s, i) == [s[i..e]] + rest;
      if rest != [] {
        assert e < |s|;
      }
      RunsShapedCons(s[i..e], rest);
    }
  }

  /** Each run is one match, and every run but the last ends in a terminator,
      so no two consecutive runs could have been a single match. */
  lemma SentenceRunsShape(s: string)
    ensures forall k :: 0 <= k < |SentenceRuns(s)| ==> IsSentenceRun(SentenceRuns(s)[k])
    ensures forall k :: 0 <= k < |SentenceRuns(s)| - 1 ==>
              |SentenceRuns(s)[k]| > 0 && IsTerminator(SentenceRuns(s)[k][|SentenceRuns(s)[k]| - 1])
  {
    RunsShape(s, 0);
  }

  /** From `i` on there are no matches exactly when only terminators follow. */
  lemma {:induction false} RunsEmpty(s: string, i: nat)
    requires i <= |s|
    ensures SentenceRunsFrom(s, i) == [] <==> forall k :: i <= k < |s| ==> IsTerminator(s[k])
    decreases |s| - i
  {
    if i < |s| && IsTerminator(s[i]) {
      RunsEmpty(s, i + 1);
    }
  }

  /** There are no matches exactly when every character is a terminator. */
  lemma SentenceRunsEmpty(s: string)
    ensures SentenceRuns(s) == [] <==> !HasNonTerminator(s)
  {
    RunsEmpty(s, 0);
  }

  /** `sentence.length > MaxChunkLength`: the sentence must be hard-cut. */
  predicate IsLong(sentence: string)
  {
    |sentence| > MaxChunkLength
  }

  /** The exact-size slices cut from a long sentence (lines 35-38). */
  function LongSlices(s: string): (r: seq<string>)
    requires IsLong(s)
    decreases |s|
    ensures |r| >= 1
    ensures forall k :: 0 <= k < |r| ==> |r[k]| == MaxChunkLength
  {
    [s[..MaxChunkLength]] + (if IsLong(s[MaxChunkLength..]) then LongSlices(s[MaxChunkLength..]) else [])
  }

  /** What is left of a long sentence once the slices are cut off (line 39). */
  function LongRemainder(s: string): (r: string)
    requires IsLong(s)
    decreases |s|
    ensures 1 <= |r| <= MaxChunkLength
  {
    if IsLong(s[MaxChunkLength..]) then LongRemainder(s[MaxChunkLength..]) else s[MaxChunkLength..]
  }

  /** The slices and the remainder, in order, are the long sentence. */
  lemma {:induction false} LongSentenceSplit(s: string)
    requires IsLong(s)
    ensures Flatten(LongSlices(s)) + LongRemainder(s) == s
  {
    var tail := s[MaxChunkLength..];
    if IsLong(tail) {
      LongSentenceSplit(tail);
      FlattenAppend([s[..MaxChunkLength]], LongSlices(tail));
      FlattenSingle(s[..MaxChunkLength]);
    } else {
      FlattenSingle(s[..MaxChunkLength]);
    }
    assert s == s[..MaxChunkLength] + tail;
  }

  /** The state of the loop of lines 25-49: chunks pushed so far and `currentChunk`. */
  datatype PackState = PackState(chunks: seq<string>, current: string)

  /** `currentChunk` is pushed only when non-empty. */
  function Flush(current: string): seq<string>
  {
    if |current| > 0 then [current] else []
  }

  /** One iteration of the loop over the sentences (lines 26-48): the count of
      pushed chunks never drops; `StepContent` and `StepBounded` state the rest. */
  function Step(st: PackState, sentence: string): (r: PackState)
    ensures |st.chunks| <= |r.chunks|
  {
    if IsLong(sentence) then
      PackState(st.chunks + Flush(st.current) + LongSlices(sentence), LongRemainder(sentence))
    else if |st.current| + |sentence| > MaxChunkLength then
      PackState(st.chunks + [st.current], sentence)
    else
      PackState(st.chunks, st.current + sentence)
  }

  /** The loop over all remaining sentences: the count of pushed chunks never drops;
      `RunContent` and `RunBounded` state the rest. */
  function Run(st: PackState, sentences: seq<string>): (r: PackState)
    ensures |st.chunks| <= |r.chunks|
    decreases |sentences|
  {
    if sentences == [] then st else Run(Step(st, sentences[0]), sentences[1..])
  }

  /** The loop followed by the final push of lines 51-53: the count of chunks never
      drops; `FinishContent`, `FinishBounded` and `FinishExtends` state
      the rest. */
  function Finish(st: PackState, sentences: seq<string>): (r: seq<string>)
    ensures |st.chunks| <= |r|
  {
    var last := Run(st, sentences);
    last.chunks + Flush(last.current)
  }

  /** `chunkText` of utils/textUtils.ts. The empty text gives no chunks, and a
      non-empty text of terminators only is returned whole, however long. */
  function ChunkText(text: string): (chunks: seq<string>)
    ensures text == [] ==> chunks == []
    ensures text != [] && !HasNonTerminator(text) ==> chunks == [text]
  {
    SentenceRunsEmpty(text);
    if text == [] then []
    else
      var sentences := SentenceRuns(text);
      if sentences == [] then [text] else Finish(PackState([], ""), sentences)
  }

  // ---------------------------------------------------------------------
  // Loop invariants of the packing loop.

  /** Every pushed chunk holds 1..MaxChunkLength characters; so does the current one, if any. */
  predicate Bounded(st: PackState)
  {
    && (forall j :: 0 <= j < |st.chunks| ==> 0 < |st.chunks[j]| <= MaxChunkLength)
    && |st.current| <= MaxChunkLength
  }

  lemma StepBounded(st: PackState, sentence: string)
    requires Bounded(st)
    ensures Bounded(Step(st, sentence))
  {
    if IsLong(sentence) {
      var c := st.chunks + Flush(st.current) + LongSlices(sentence);
      assert forall j :: 0 <= j < |c| ==> 0 < |c[j]| <= MaxChunkLength by {
        forall j | 0 <= j < |c| ensures 0 < |c[j]| <= MaxChunkLength {
          if j >= |st.chunks| + |Flush(st.current)| {
            assert c[j] == LongSlices(sentence)[j - |st.chunks| - |Flush(st.current)|];
          }
        }
      }
    }
  }

  lemma {:induction false} RunBounded(st: PackState, sentences: seq<string>)
    requires Bounded(st)
    ensures Bounded(Run(st, sentences))
    decreases |sentences|
  {
    if sentences != [] {
      StepBounded(st, sentences[0]);
      RunBounded(Step(st, sentences[0]), sentences[1..]);
    }
  }

  /** Every chunk the packer emits holds between 1 and MaxChunkLength characters. */
  lemma FinishBounded(st: PackState, sentences: seq<string>)
    requires Bounded(st)
    ensures forall j :: 0 <= j < |Finish(st, sentences)| ==> 0 < |Finish(st, sentences)[j]| <= MaxChunkLength
  {
    RunBounded(st, sentences);
  }

  /** The text is neither lost nor reordered by one iteration. */
  lemma StepContent(st: PackState, sentence: string)
    ensures Flatten(Step(st, sentence).chunks) + Step(st, sentence).current
         == Flatten(st.chunks) + st.current + sentence
  {
    if IsLong(sentence) {
      FlattenAppend(st.chunks + Flush(st.current), LongSlices(sentence));
      FlattenAppend(st.chunks, Flush(st.current));
      if |st.current| > 0 { FlattenSingle(st.current); }
      LongSentenceSplit(sentence);
    } else if |st.current| + |sentence| > MaxChunkLength {
      FlattenAppend(st.chunks, [st.current]);
      FlattenSingle(st.current);
    }
  }

  lemma {:induction false} FinishContent(st: PackState, sentences: seq<string>)
    ensures Flatten(Finish(st, sentences)) == Flatten(st.chunks) + st.current + Flatten(sentences)
    decreases |sentences|
  {
    if sentences == [] {
      FlattenAppend(st.chunks, Flush(st.current));
      if |st.current| > 0 { FlattenSingle(st.current); }
    } else {
      var st' := Step(st, sentences[0]);
      StepContent(st, sentences[0]);
      FinishContent(st', sentences[1..]);
    }
  }

  lemma PrefixLengthMono<T>(xs: seq<seq<T>>, i: nat, j: nat)
    requires i <= j <= |xs|
    ensures PrefixLength(xs, i) <= PrefixLength(xs, j)
  {
    assert xs[..j] == xs[..i] + xs[i..j];
    FlattenAppend(xs[..i], xs[i..j]);
  }

  /** Chunks already pushed are kept as they are, and no later cut falls
      before the end of the current chunk: the current chunk is the start of
      the next chunk emitted. */
  lemma {:induction false} FinishExtends(st: PackState, sentences: seq<string>)
    ensures |st.chunks| <= |Finish(st, sentences)|
    ensures Finish(st, sentences)[..|st.chunks|] == st.chunks
    ensures forall j :: |st.chunks| < j < |Finish(st, sentences)| ==>
              PrefixLength(Finish(st, sentences), j) >= |Flatten(st.chunks)| + |st.current|
    decreases |sentences|
  {
    var out := Finish(st, sentences);
    if sentences != [] {
      var s := sentences[0];
      var st' := Step(st, s);
      FinishExtends(st', sentences[1..]);
      assert out == Finish(st', sentences[1..]);
      assert st'.chunks[..|st.chunks|] == st.chunks;
      assert out[..|st.chunks|] == st.chunks;
      var n := |st.chunks|;
      forall j | n < j < |out|
        ensures PrefixLength(out, j) >= |Flatten(st.chunks)| + |st.current|
      {
        if IsLong(s) {
          var m := n + |Flush(st.current)|;
          assert out[..m] == st.chunks + Flush(st.current) by {
            assert st'.chunks[..m] == st.chunks + Flush(st.current);
          }
          FlattenAppend(st.chunks, Flush(st.current));
          if |st.current| > 0 { FlattenSingle(st.current); }
          PrefixLengthMono(out, m, j);
        } else if |st.current| + |s| > MaxChunkLength {
          assert out[..n + 1] == st.chunks + [st.current] by {
            assert st'.chunks == st.chunks + [st.current];
          }
          FlattenAppend(st.chunks, [st.current]);
          FlattenSingle(st.current);
          PrefixLengthMono(out, n + 1, j);
        }
      }
    } else {
      assert out[..|st.chunks|] == st.chunks;
    }
  }

  /** The loop state after the first `k` sentences. */
  lemma {:induction false} RunSplit(st: PackState, sentences: seq<string>, k: nat)
    requires k <= |sentences|
    ensures Run(st, sentences) == Run(Run(st, sentences[..k]), sentences[k..])
    decreases k
  {
    if k > 0 {
      assert sentences[..k][1..] == sentences[1..][..k - 1];
      assert sentences[k..] == sentences[1..][k - 1..];
      RunSplit(Step(st, sentences[0]), sentences[1..], k - 1);
    }
  }

  lemma FinishSplit(st: PackState, sentences: seq<string>, k: nat)
    requires k <= |sentences|
    ensures Finish(st, sentences) == Finish(Run(st, sentences[..k]), sentences[k..])
  {
    RunSplit(st, sentences, k);
  }

  /** The loop keeps pushed and current text equal to the sentences processed. */
  lemma {:induction false} RunContent(st: PackState, sentences: seq<string>)
    ensures Flatten(Run(st, sentences).chunks) + Run(st, sentences).current
         == Flatten(st.chunks) + st.current + Flatten(sentences)
    decreases |sentences|
  {
    if sentences != [] {
      StepContent(st, sentences[0]);
      RunContent(Step(st, sentences[0]), sentences[1..]);
    }
  }

  /** No cut of `chunks` falls strictly between offsets `lo` and `hi` of their concatenation. */
  predicate NoCutInside(chunks: seq<string>, lo: int, hi: int)
  {
    forall j :: 0 < j < |chunks| ==> !(lo < PrefixLength(chunks, j) < hi)
  }

  /** A sentence of at most MaxChunkLength characters lands in a single chunk. */
  lemma ShortSentenceKept(sentences: seq<string>, k: nat)
    requires k < |sentences| && !IsLong(sentences[k])
    ensures NoCutInside(Finish(PackState([], ""), sentences),
                        PrefixLength(sentences, k), PrefixLength(sentences, k) + |sentences[k]|)
  {
    var init := PackState([], "");
    var out := Finish(init, sentences);
    var lo := PrefixLength(sentences, k);
    var s := sentences[k];
    var st := Run(init, sentences[..k]);
    var st' := Step(st, s);
    FinishSplit(init, sentences, k);
    assert sentences[k..][1..] == sentences[k + 1..];
    assert out == Finish(st', sentences[k + 1..]);
    RunContent(init, sentences[..k]);
    assert |Flatten(st.chunks)| + |st.current| == lo;
    StepContent(st, s);
    FinishExtends(st', sentences[k + 1..]);
    var n := |st'.chunks|;
    assert |Flatten(st'.chunks)| <= lo by {
      if |st.current| + |s| > MaxChunkLength {
        FlattenAppend(st.chunks, [st.current]);
        FlattenSingle(st.current);
      }
    }
    forall j | 0 < j < |out| ensures !(lo < PrefixLength(out, j) < lo + |s|) {
      if j <= n {
        assert out[..j] == st'.chunks[..j];
        PrefixLengthBound(st'.chunks, j);
      }
    }
  }

  /** A non-empty current chunk is the beginning of the next chunk emitted. */
  lemma CurrentStartsNextChunk(st: PackState, sentences: seq<string>)
    requires st.current != []
    ensures |st.chunks| < |Finish(st, sentences)|
    ensures |st.current| <= |Finish(st, sentences)[|st.chunks|]|
    ensures Finish(st, sentences)[|st.chunks|][..|st.current|] == st.current
  {
    var out := Finish(st, sentences);
    var n := |st.chunks|;
    FinishExtends(st, sentences);
    FinishContent(st, sentences);
    assert out == st.chunks + out[n..];
    FlattenAppend(st.chunks, out[n..]);
    var fc := Flatten(st.chunks);
    var tail := st.current + Flatten(sentences);
    assert fc + Flatten(out[n..]) == fc + tail;
    assert (fc + Flatten(out[n..]))[|fc|..] == Flatten(out[n..]);
    assert (fc + tail)[|fc|..] == tail;
    assert Flatten(out[n..]) == tail;
    assert |out[n..]| > 0;
    var next := out[n];
    assert out[n..] == [next] + out[n + 1..];
    FlattenAppend([next], out[n + 1..]);
    FlattenSingle(next);
    if |out| > n + 1 {
      assert out[..n + 1] == st.chunks + [next];
      FlattenAppend(st.chunks, [next]);
      FlattenSingle(next);
      assert PrefixLength(out, n + 1) >= |fc| + |st.current|;
    } else {
      assert out[n + 1..] == [];
    }
    assert tail[..|st.current|] == st.current;
  }

  /** A long sentence comes out as consecutive exact-size slices starting at
      its own offset, and the chunk after them begins with its remainder. */
  lemma LongSentenceSliced(sentences: seq<string>, k: nat)
    requires k < |sentences| && IsLong(sentences[k])
    ensures exists j :: (
              && 0 <= j && j + |LongSlices(sentences[k])| < |Finish(PackState([], ""), sentences)|
              && Finish(PackState([], ""), sentences)[j..j + |LongSlices(sentences[k])|] == LongSlices(sentences[k])
              && PrefixLength(Finish(PackState([], ""), sentences), j) == PrefixLength(sentences, k)
              && var next := Finish(PackState([], ""), sentences)[j + |LongSlices(sentences[k])|];
                 |LongRemainder(sentences[k])| <= |next| && next[..|LongRemainder(sentences[k])|] == LongRemainder(sentences[k]))
  {
    var init := PackState([], "");
    var out := Finish(init, sentences);
    var s := sentences[k];
    var sl := LongSlices(s);
    var st := Run(init, sentences[..k]);
    var st' := Step(st, s);
    FinishSplit(init, sentences, k);
    assert sentences[k..][1..] == sentences[k + 1..];
    assert out == Finish(st', sentences[k + 1..]);
    RunContent(init, sentences[..k]);
    FinishExtends(st', sentences[k + 1..]);
    CurrentStartsNextChunk(st', sentences[k + 1..]);
    var pre := st.chunks + Flush(st.current);
    var j := |pre|;
    assert st'.chunks == pre + sl;
    assert out[..|st'.chunks|] == st'.chunks;
    assert out[j..j + |sl|] == sl by { assert st'.chunks[j..j + |sl|] == sl; }
    assert out[..j] == pre by { assert st'.chunks[..j] == pre; }
    FlattenAppend(st.chunks, Flush(st.current));
    if |st.current| > 0 { FlattenSingle(st.current); }
    assert PrefixLength(out, j) == PrefixLength(sentences, k);
  }

  // ---------------------------------------------------------------------
  // Properties of `chunkText`.

  /** Whenever the text has a non-terminator, every chunk holds 1..4500 characters. */
  lemma ChunkTextBounded(text: string)
    requires HasNonTerminator(text)
    ensures forall j :: 0 <= j < |ChunkText(text)| ==> 0 < |ChunkText(text)[j]| <= MaxChunkLength
  {
    SentenceRunsEmpty(text);
    FinishBounded(PackState([], ""), SentenceRuns(text));
  }

  /** The chunks, concatenated, are the text minus its leading '.', '!', '?' run. */
  lemma ChunkTextReassembles(text: string)
    requires HasNonTerminator(text)
    ensures Flatten(ChunkText(text)) == DropLeadingTerminators(text)
  {
    SentenceRunsEmpty(text);
    SentenceRunsCover(text);
    FinishContent(PackState([], ""), SentenceRuns(text));
  }

  /** Chunk cuts never fall inside a sentence run of at most 4500 characters;
      offsets are into the text minus its leading terminators. */
  lemma ChunkTextKeepsSentences(text: string, k: nat)
    requires k < |SentenceRuns(text)| && !IsLong(SentenceRuns(text)[k])
    ensures NoCutInside(ChunkText(text), PrefixLength(SentenceRuns(text), k),
                        PrefixLength(SentenceRuns(text), k) + |SentenceRuns(text)[k]|)
  {
    ShortSentenceKept(SentenceRuns(text), k);
  }

  /** Packing sentences that fit together leaves a single chunk. */
  lemma {:induction false} RunFits(st: PackState, sentences: seq<string>)
    requires (forall k :: 0 <= k < |sentences| ==> |sentences[k]| > 0)
    requires |st.current| + |Flatten(sentences)| <= MaxChunkLength
    ensures Run(st, sentences) == PackState(st.chunks, st.current + Flatten(sentences))
    decreases |sentences|
  {
    if sentences != [] {
      var s := sentences[0];
      assert Flatten(sentences) == s + Flatten(sentences[1..]);
      RunFits(PackState(st.chunks, st.current + s), sentences[1..]);
    }
  }

  /** A text of at most 4500 characters with a non-terminator is one chunk. */
  lemma ShortTextSingleChunk(text: string)
    requires HasNonTerminator(text) && |text| <= MaxChunkLength
    ensures ChunkText(text) == [DropLeadingTerminators(text)]
  {
    var sentences := SentenceRuns(text);
    SentenceRunsEmpty(text);
    SentenceRunsCover(text);
    SentenceRunsShape(text);
    RunFits(PackState([], ""), sentences);
    assert "" + Flatten(sentences) == Flatten(sentences);
    assert |Flatten(sentences)| > 0;
  }
}
