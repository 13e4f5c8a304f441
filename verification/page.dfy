/** `handleGenerateSpeech` of pages/TextToSpeechPage.tsx: reject blank text,
    split the text with the page's `chunkText`, synthesise the chunks one at a
    time in order, decode every fragment each call forwards into a mono
    24 kHz buffer, join each chunk's buffers, join the chunks, and encode the
    result as a WAV file. The SDK responses, `atob` and the API key are
    inputs; React state updates are left out, and the outcome records the
    chunk texts sent and either the WAV bytes or the error message shown. */
module SpeechPage {
  import opened Common
  import opened Strings
  import PageChunker
  import Pcm
  import Wav
  import SpeechService

  const SampleRate: nat := 24000
  const EmptyTextMessage: string := "Please enter some text."
  const NoAudioMessage: string := "API did not return any audio data. The prompt may have been blocked."

  /** The browser's `atob`: the binary string of a base64 text, or `None` where it throws. */
  type Atob = string -> Option<string>

  /** The SDK's responses to the request for chunk `i`: `service(i)(j)` is attempt `j`. */
  type Service = nat -> nat -> SpeechService.Attempt

  /** A buffer as `decodeAudioData(…, 24000, 1)` makes them. */
  predicate Mono(b: Pcm.AudioBuffer)
  {
    b.Valid() && b.NumberOfChannels() == 1 && b.sampleRate == SampleRate
  }

  predicate AllMono(buffers: seq<Pcm.AudioBuffer>)
  {
    forall k :: 0 <= k < |buffers| ==> Mono(buffers[k])
  }

  /** `handleAudioChunk` on one fragment (lines 114-117): `decode`, then
      `decodeAudioData` as mono at 24 kHz. A fragment that `atob` or the
      decoder rejects gives nothing: the rejection is never awaited. */
  function DecodeFragment(fragment: string, atob: Atob): (r: Option<Pcm.AudioBuffer>)
    ensures r.Some? ==> Mono(r.value)
  {
    match atob(fragment)
    case None => None
    case Some(binary) =>
      match Pcm.DecodeAudioData(CodeUnitBytes(binary), SampleRate, 1)
      case Ok(b) => Some(b)
      case Err(_) => None
  }

  /** `collectedBuffersForChunk`: the buffers of the fragments that decode,
      at most one per fragment; `DecodeAllOne` and `DecodeAllAppend` state
      which buffers they are and that fragment order is kept. */
  function DecodeAll(fragments: seq<string>, atob: Atob): (r: seq<Pcm.AudioBuffer>)
    ensures |r| <= |fragments| && AllMono(r)
  {
    if fragments == [] then []
    else
      (match DecodeFragment(fragments[0], atob) case Some(b) => [b] case None => [])
      + DecodeAll(fragments[1..], atob)
  }

  /** One fragment adds its buffer when it decodes, and nothing otherwise. */
  lemma DecodeAllOne(fragment: string, atob: Atob)
    ensures DecodeFragment(fragment, atob).Some? ==> DecodeAll([fragment], atob) == [DecodeFragment(fragment, atob).value]
    ensures DecodeFragment(fragment, atob).None? ==> DecodeAll([fragment], atob) == []
  {
    assert [fragment][1..] == [];
  }

  /** Decoding the fragments forwarded one after the other collects their
      buffers one after the other. */
  lemma {:induction false} DecodeAllAppend(a: seq<string>, b: seq<string>, atob: Atob)
    ensures DecodeAll(a + b, atob) == DecodeAll(a, atob) + DecodeAll(b, atob)
  {
    if a != [] {
      assert (a + b)[1..] == a[1..] + b;
      DecodeAllAppend(a[1..], b, atob);
    } else {
      assert a + b == b;
    }
  }

  /** Mono buffers always concatenate, into a mono buffer. */
  lemma MonoConcatenates(buffers: seq<Pcm.AudioBuffer>)
    requires AllMono(buffers)
    ensures Pcm.AllValid(buffers)
    ensures Pcm.Concatenate(buffers, SampleRate).Ok? && Mono(Pcm.Concatenate(buffers, SampleRate).value)
  {
    assert Pcm.AllValid(buffers);
    assert Pcm.ChannelsCovered(buffers);
  }

  /** `concatenateAudioBuffers(buffers, audioContext)` on mono buffers. */
  function Join(buffers: seq<Pcm.AudioBuffer>): (r: Pcm.AudioBuffer)
    requires AllMono(buffers)
    ensures Mono(r)
  {
    MonoConcatenates(buffers);
    Pcm.Concatenate(buffers, SampleRate).value
  }

  /** The samples of some buffers, one after the other. */
  function Samples(buffers: seq<Pcm.AudioBuffer>): seq<real>
    requires AllMono(buffers)
  {
    Flatten(seq(|buffers|, k requires 0 <= k < |buffers| => buffers[k].channels[0]))
  }

  /** Joining mono buffers puts their samples one after the other. */
  lemma JoinSamples(buffers: seq<Pcm.AudioBuffer>)
    requires AllMono(buffers) && buffers != []
    ensures Join(buffers).channels == [Samples(buffers)]
  {
    MonoConcatenates(buffers);
    assert Pcm.HasChannel(buffers, 0);
    Pcm.ChannelPrefixFlatten(buffers, |buffers|, 0);
  }

  /** The call of `generateSpeech` for chunk `i`. */
  function ChunkRun(i: nat, apiKeySet: bool, service: Service): SpeechService.SpeechRun
  {
    SpeechService.GenerateSpeech(apiKeySet, service(i))
  }

  /** What each chunk's call did, by chunk index. The loop below is stated
      over any such table; the page passes the calls above. */
  type Runs = nat -> SpeechService.SpeechRun

  function PageRuns(apiKeySet: bool, service: Service): Runs
  {
    (i: nat) => ChunkRun(i, apiKeySet, service)
  }

  /** The buffers collected for chunk `i`. */
  function ChunkBuffers(runs: Runs, i: nat, atob: Atob): (r: seq<Pcm.AudioBuffer>)
    ensures AllMono(r)
  {
    DecodeAll(runs(i).forwarded, atob)
  }

  /** The buffers collected for each chunk, by chunk index. */
  type Decoded = nat -> seq<Pcm.AudioBuffer>

  function PageDecoded(runs: Runs, atob: Atob): (d: Decoded)
    ensures forall i: nat :: AllMono(d(i))
  {
    (i: nat) => ChunkBuffers(runs, i, atob)
  }

  /** What a chunk contributes (lines 121-124): its collected buffers, when
      there are any, to be joined into one. */
  function ChunkAudio(buffers: seq<Pcm.AudioBuffer>): (r: seq<seq<Pcm.AudioBuffer>>)
    ensures |r| <= 1 && (r == [] <==> buffers == [])
  {
    if buffers == [] then [] else [buffers]
  }

  /** Buffer lists that each join into one mono buffer. */
  predicate Joinable(audio: seq<seq<Pcm.AudioBuffer>>)
  {
    forall k :: 0 <= k < |audio| ==> audio[k] != [] && AllMono(audio[k])
  }

  /** `allFinalBuffers`: each chunk's buffers joined into one. */
  function FinalBuffers(audio: seq<seq<Pcm.AudioBuffer>>): (r: seq<Pcm.AudioBuffer>)
    requires Joinable(audio)
    ensures |r| == |audio| && AllMono(r)
  {
    seq(|audio|, k requires 0 <= k < |audio| => Join(audio[k]))
  }

  /** What the loop over chunks did: the chunk texts sent, the buffers of
      every chunk that produced audio, and the message of the error that
      stopped it, if any. */
  datatype ChunksRun = ChunksRun(requested: seq<string>, chunkAudio: seq<seq<Pcm.AudioBuffer>>, error: Option<string>)

  /** The loop of lines 109-125 from chunk `i` on: at most one request and
      one buffer list per chunk, and a request whenever a chunk is left;
      `ProcessPrefix`, `ProcessCompletes`, `ProcessFails` and `ProcessTrack`
      state which. */
  function ProcessChunks(chunks: seq<string>, i: nat, runs: Runs, decoded: Decoded): (r: ChunksRun)
    requires i <= |chunks| && forall j: nat :: AllMono(decoded(j))
    ensures Joinable(r.chunkAudio)
    ensures |r.chunkAudio| <= |r.requested| <= |chunks| - i
    ensures r.requested == [] <==> i == |chunks|
    decreases |chunks| - i
  {
    if i == |chunks| then ChunksRun([], [], None)
    else if runs(i).error.Some? then ChunksRun([chunks[i]], [], runs(i).error)
    else
      var rest := ProcessChunks(chunks, i + 1, runs, decoded);
      var here := ChunkAudio(decoded(i));
      assert Joinable(here + rest.chunkAudio) by {
        assert forall k :: 0 <= k < |rest.chunkAudio| ==> (here + rest.chunkAudio)[|here| + k] == rest.chunkAudio[k];
      }
      ChunksRun([chunks[i]] + rest.requested, here + rest.chunkAudio, rest.error)
  }

  /** What a click of "Generate Speech" leads to: the chunk texts sent, and
      the WAV file or the error message shown. */
  datatype PageOutcome = PageOutcome(requested: seq<string>, result: Result<seq<byte>, string>)

  /** `handleGenerateSpeech` (lines 78-144): blank text, and only blank text,
      sends no request, and a WAV file always holds at least its header;
      `PageRequestsInOrder`, `PageNoAudio` and `PageWav` state the rest. */
  function HandleGenerateSpeech(text: string, apiKeySet: bool, service: Service, atob: Atob): (r: PageOutcome)
    ensures r.requested == [] <==> AllWhitespace(text)
    ensures r.result.Ok? ==> |r.result.value| > Wav.HeaderSize
  {
    PageChunker.ChunkTextEmpty(text, PageChunker.DefaultMaxLength);
    if Trim(text) == [] then PageOutcome([], Err(EmptyTextMessage))
    else
      var chunks := PageChunker.ChunkText(text, PageChunker.DefaultMaxLength);
      var runs := PageRuns(apiKeySet, service);
      var run := ProcessChunks(chunks, 0, runs, PageDecoded(runs, atob));
      var finalBuffers := FinalBuffers(run.chunkAudio);
      if run.error.Some? then PageOutcome(run.requested, Err(run.error.value))
      else if finalBuffers == [] then PageOutcome(run.requested, Err(NoAudioMessage))
      else PageOutcome(run.requested, Ok(Wav.EncodeWav(Join(finalBuffers))))
  }

  // ---------------------------------------------------------------------
  // Properties of the chunk loop

  /** The calls for chunks `i` to `n` - 1 all succeeded. */
  predicate AllSucceed(runs: Runs, i: nat, n: int)
  {
    forall j :: i <= j < n ==> runs(j).error.None?
  }

  /** Chunks are sent in order from `i`, one request per chunk. */
  lemma {:induction false} ProcessPrefix(chunks: seq<string>, i: nat, runs: Runs, decoded: Decoded)
    requires i <= |chunks| && forall j: nat :: AllMono(decoded(j))
    ensures var r := ProcessChunks(chunks, i, runs, decoded);
            i + |r.requested| <= |chunks| && r.requested == chunks[i..i + |r.requested|]
    decreases |chunks| - i
  {
    if i < |chunks| && runs(i).error.None? {
      var next := i + 1;
      ProcessPrefix(chunks, next, runs, decoded);
      var rest := ProcessChunks(chunks, next, runs, decoded);
      SliceCons(chunks, i, rest.requested);
    }
  }

  /** An element followed by the slice after it is the longer slice. */
  lemma SliceCons<T>(s: seq<T>, i: nat, rest: seq<T>)
    requires i + 1 + |rest| <= |s| && rest == s[i + 1..i + 1 + |rest|]
    ensures [s[i]] + rest == s[i..i + 1 + |rest|]
  {
  }

  /** A loop that ends without an error sent every chunk, and every call
      succeeded. */
  lemma {:induction false} ProcessCompletes(chunks: seq<string>, i: nat, runs: Runs, decoded: Decoded)
    requires i <= |chunks| && forall j: nat :: AllMono(decoded(j))
    ensures var r := ProcessChunks(chunks, i, runs, decoded);
            r.error.None? ==> i + |r.requested| == |chunks| && AllSucceed(runs, i, |chunks|)
    decreases |chunks| - i
  {
    if i < |chunks| && runs(i).error.None? {
      var next := i + 1;
      ProcessCompletes(chunks, next, runs, decoded);
      var r := ProcessChunks(chunks, i, runs, decoded);
      var rest := ProcessChunks(chunks, next, runs, decoded);
      assert |r.requested| == 1 + |rest.requested| && r.error == rest.error;
    }
  }

  /** A loop that ends with an error stopped right after the first chunk
      whose call threw, and reports that call's error. */
  lemma {:induction false} ProcessFails(chunks: seq<string>, i: nat, runs: Runs, decoded: Decoded)
    requires i <= |chunks| && forall j: nat :: AllMono(decoded(j))
    ensures var r := ProcessChunks(chunks, i, runs, decoded);
            r.error.Some? ==> && 0 < |r.requested| && i + |r.requested| <= |chunks|
                              && AllSucceed(runs, i, i + |r.requested| - 1)
                              && r.error == runs(i + |r.requested| - 1).error
    decreases |chunks| - i
  {
    if i < |chunks| && runs(i).error.None? {
      var next := i + 1;
      ProcessFails(chunks, next, runs, decoded);
      var r := ProcessChunks(chunks, i, runs, decoded);
      var rest := ProcessChunks(chunks, next, runs, decoded);
      assert |r.requested| == 1 + |rest.requested| && r.error == rest.error;
      assert i + |r.requested| - 1 == next + |rest.requested| - 1;
    }
  }

  /** The samples of the buffers of chunks `i` to `n` - 1: chunk after chunk,
      each chunk's fragments in order. */
  function TrackFrom(decoded: Decoded, i: nat, n: nat): seq<real>
    requires i <= n && forall j: nat :: AllMono(decoded(j))
    decreases n - i
  {
    if i == n then [] else Samples(decoded(i)) + TrackFrom(decoded, i + 1, n)
  }

  lemma SamplesAppend(a: seq<Pcm.AudioBuffer>, b: seq<Pcm.AudioBuffer>)
    requires AllMono(a) && AllMono(b)
    ensures AllMono(a + b) && Samples(a + b) == Samples(a) + Samples(b)
  {
    var pa := seq(|a|, k requires 0 <= k < |a| => a[k].channels[0]);
    var pb := seq(|b|, k requires 0 <= k < |b| => b[k].channels[0]);
    var ab := a + b;
    assert seq(|ab|, k requires 0 <= k < |ab| => ab[k].channels[0]) == pa + pb;
    FlattenAppend(pa, pb);
  }

  lemma SamplesSingle(b: Pcm.AudioBuffer)
    requires Mono(b)
    ensures Samples([b]) == b.channels[0]
  {
    assert seq(1, k requires 0 <= k < 1 => [b][k].channels[0]) == [b.channels[0]];
    FlattenSingle(b.channels[0]);
  }

  /** A chunk adds exactly the samples of its decoded fragments. */
  lemma ContributionSamples(buffers: seq<Pcm.AudioBuffer>)
    requires AllMono(buffers)
    ensures Samples(FinalBuffers(ChunkAudio(buffers))) == Samples(buffers)
  {
    var joined := FinalBuffers(ChunkAudio(buffers));
    if buffers == [] {
      assert Samples(buffers) == [];
      assert Samples(joined) == [];
    } else {
      assert joined == [Join(buffers)];
      JoinSamples(buffers);
      SamplesSingle(Join(buffers));
    }
  }

  /** Joining each chunk's buffers distributes over the chunks. */
  lemma FinalBuffersAppend(x: seq<seq<Pcm.AudioBuffer>>, y: seq<seq<Pcm.AudioBuffer>>)
    requires Joinable(x) && Joinable(y)
    ensures Joinable(x + y) && FinalBuffers(x + y) == FinalBuffers(x) + FinalBuffers(y)
  {
    assert forall k :: 0 <= k < |y| ==> (x + y)[|x| + k] == y[k];
  }

  /** Without an error, the joined chunk buffers hold the decoded fragments of
      every chunk, in chunk order and in fragment order; a chunk without
      audio adds nothing. */
  lemma {:induction false} ProcessTrack(chunks: seq<string>, i: nat, runs: Runs, decoded: Decoded)
    requires i <= |chunks| && forall j: nat :: AllMono(decoded(j))
    requires ProcessChunks(chunks, i, runs, decoded).error.None?
    ensures Samples(FinalBuffers(ProcessChunks(chunks, i, runs, decoded).chunkAudio)) == TrackFrom(decoded, i, |chunks|)
    decreases |chunks| - i
  {
    var r := ProcessChunks(chunks, i, runs, decoded);
    if i < |chunks| {
      var next := i + 1;
      ProcessTrack(chunks, next, runs, decoded);
      var rest := ProcessChunks(chunks, next, runs, decoded);
      var here := ChunkAudio(decoded(i));
      assert r.chunkAudio == here + rest.chunkAudio;
      FinalBuffersAppend(here, rest.chunkAudio);
      SamplesAppend(FinalBuffers(here), FinalBuffers(rest.chunkAudio));
      ContributionSamples(decoded(i));
    } else {
      assert FinalBuffers(r.chunkAudio) == [];
    }
  }

  /** The chunks from `i` on produced no audio. */
  predicate NoAudioFrom(decoded: Decoded, i: nat, n: nat)
  {
    forall j :: i <= j < n ==> decoded(j) == []
  }

  /** The loop produces no buffer exactly when no chunk produced audio. */
  lemma {:induction false} ProcessNoAudio(chunks: seq<string>, i: nat, runs: Runs, decoded: Decoded)
    requires i <= |chunks| && forall j: nat :: AllMono(decoded(j))
    requires ProcessChunks(chunks, i, runs, decoded).error.None?
    ensures ProcessChunks(chunks, i, runs, decoded).chunkAudio == [] <==> NoAudioFrom(decoded, i, |chunks|)
    decreases |chunks| - i
  {
    var r := ProcessChunks(chunks, i, runs, decoded);
    if i < |chunks| {
      var next := i + 1;
      ProcessNoAudio(chunks, next, runs, decoded);
      var rest := ProcessChunks(chunks, next, runs, decoded);
      var here := ChunkAudio(decoded(i));
      assert r.chunkAudio == here + rest.chunkAudio;
      NoAudioStep(decoded, i, |chunks|);
    }
  }

  lemma NoAudioStep(decoded: Decoded, i: nat, n: nat)
    requires i < n
    ensures NoAudioFrom(decoded, i, n) <==> decoded(i) == [] && NoAudioFrom(decoded, i + 1, n)
  {
  }

  // ---------------------------------------------------------------------
  // Properties of the page

  /** Blank text is refused before any chunking or request. */
  lemma BlankTextRefused(text: string, apiKeySet: bool, service: Service, atob: Atob)
    requires AllWhitespace(text)
    ensures HandleGenerateSpeech(text, apiKeySet, service, atob) == PageOutcome([], Err(EmptyTextMessage))
  {
  }

  /** The loop the page runs on non-blank text. */
  lemma PageRun(text: string, apiKeySet: bool, service: Service, atob: Atob)
    requires !AllWhitespace(text)
    ensures var chunks := PageChunker.ChunkText(text, PageChunker.DefaultMaxLength);
            var runs := PageRuns(apiKeySet, service);
            var run := ProcessChunks(chunks, 0, runs, PageDecoded(runs, atob));
            var out := HandleGenerateSpeech(text, apiKeySet, service, atob);
            && chunks != []
            && out.requested == run.requested
            && out.result == (if run.error.Some? then Err(run.error.value)
                              else if run.chunkAudio == [] then Err(NoAudioMessage)
                              else Ok(Wav.EncodeWav(Join(FinalBuffers(run.chunkAudio)))))
  {
    PageChunker.ChunkTextEmpty(text, PageChunker.DefaultMaxLength);
    assert Trim(text) != [];
  }

  /** The loop sends a non-empty prefix of the chunks: all of them when every
      call succeeds, and otherwise up to the first failing one, whose error it
      reports. */
  lemma LoopRequests(chunks: seq<string>, runs: Runs, decoded: Decoded)
    requires chunks != [] && forall j: nat :: AllMono(decoded(j))
    ensures var r := ProcessChunks(chunks, 0, runs, decoded);
            var n := |r.requested|;
            && 0 < n <= |chunks| && r.requested == chunks[..n]
            && AllSucceed(runs, 0, n - 1)
            && (AllSucceed(runs, 0, |chunks|) ==> n == |chunks| && r.error.None?)
            && (!AllSucceed(runs, 0, |chunks|) ==> r.error.Some? && r.error == runs(n - 1).error)
  {
    ProcessPrefix(chunks, 0, runs, decoded);
    ProcessCompletes(chunks, 0, runs, decoded);
    ProcessFails(chunks, 0, runs, decoded);
    var r := ProcessChunks(chunks, 0, runs, decoded);
    if r.error.Some? {
      assert !runs(|r.requested| - 1).error.None?;
    }
  }

  /** For text that is not blank, the chunks of the page's `chunkText` are
      sent in order: all of them when every call succeeds, and otherwise up to
      the first failing one, whose error message is shown. */
  lemma PageRequestsInOrder(text: string, apiKeySet: bool, service: Service, atob: Atob)
    requires !AllWhitespace(text)
    ensures var chunks := PageChunker.ChunkText(text, PageChunker.DefaultMaxLength);
            var out := HandleGenerateSpeech(text, apiKeySet, service, atob);
            var n := |out.requested|;
            && 0 < n <= |chunks| && out.requested == chunks[..n]
            && AllSucceed(PageRuns(apiKeySet, service), 0, n - 1)
            && (AllSucceed(PageRuns(apiKeySet, service), 0, |chunks|) ==> n == |chunks|)
            && (!AllSucceed(PageRuns(apiKeySet, service), 0, |chunks|) ==>
                  out.result.Err? && ChunkRun(n - 1, apiKeySet, service).error == Some(out.result.error))
  {
    var chunks := PageChunker.ChunkText(text, PageChunker.DefaultMaxLength);
    var runs := PageRuns(apiKeySet, service);
    var decoded := PageDecoded(runs, atob);
    PageRun(text, apiKeySet, service, atob);
    LoopRequests(chunks, runs, decoded);
    var r := ProcessChunks(chunks, 0, runs, decoded);
    assert runs(|r.requested| - 1) == ChunkRun(|r.requested| - 1, apiKeySet, service);
  }

  /** When every call succeeds, the loop produces no buffer exactly when no
      chunk produced audio, and otherwise one mono 24 kHz buffer joins to the
      samples of every chunk in order. */
  lemma LoopTrack(chunks: seq<string>, runs: Runs, decoded: Decoded)
    requires forall j: nat :: AllMono(decoded(j))
    requires AllSucceed(runs, 0, |chunks|)
    ensures var r := ProcessChunks(chunks, 0, runs, decoded);
            && r.error.None?
            && (r.chunkAudio == [] <==> NoAudioFrom(decoded, 0, |chunks|))
            && (r.chunkAudio != [] ==>
                  Join(FinalBuffers(r.chunkAudio)) == Pcm.AudioBuffer(SampleRate, [TrackFrom(decoded, 0, |chunks|)]))
  {
    ProcessFails(chunks, 0, runs, decoded);
    var r := ProcessChunks(chunks, 0, runs, decoded);
    assert r.error.None?;
    ProcessNoAudio(chunks, 0, runs, decoded);
    if r.chunkAudio != [] {
      ProcessTrack(chunks, 0, runs, decoded);
      JoinSamples(FinalBuffers(r.chunkAudio));
    }
  }

  /** When every call succeeds, the page shows the no-audio error exactly when
      no chunk produced a decodable fragment, and produces a WAV file exactly
      when some chunk did. */
  lemma PageNoAudio(text: string, apiKeySet: bool, service: Service, atob: Atob)
    requires !AllWhitespace(text)
    requires AllSucceed(PageRuns(apiKeySet, service), 0, |PageChunker.ChunkText(text, PageChunker.DefaultMaxLength)|)
    ensures HandleGenerateSpeech(text, apiKeySet, service, atob).result == Err(NoAudioMessage)
        <==> NoAudioFrom(PageDecoded(PageRuns(apiKeySet, service), atob), 0,
                         |PageChunker.ChunkText(text, PageChunker.DefaultMaxLength)|)
    ensures HandleGenerateSpeech(text, apiKeySet, service, atob).result.Ok?
        <==> !NoAudioFrom(PageDecoded(PageRuns(apiKeySet, service), atob), 0,
                          |PageChunker.ChunkText(text, PageChunker.DefaultMaxLength)|)
  {
    var runs := PageRuns(apiKeySet, service);
    PageRun(text, apiKeySet, service, atob);
    LoopTrack(PageChunker.ChunkText(text, PageChunker.DefaultMaxLength), runs, PageDecoded(runs, atob));
  }

  /** Whenever the page produces a WAV file, every call succeeded and the
      file holds one mono 24 kHz track with the samples of every chunk in
      order. */
  lemma PageWav(text: string, apiKeySet: bool, service: Service, atob: Atob)
    requires HandleGenerateSpeech(text, apiKeySet, service, atob).result.Ok?
    ensures var chunks := PageChunker.ChunkText(text, PageChunker.DefaultMaxLength);
            var track := TrackFrom(PageDecoded(PageRuns(apiKeySet, service), atob), 0, |chunks|);
            && AllSucceed(PageRuns(apiKeySet, service), 0, |chunks|)
            && track != []
            && HandleGenerateSpeech(text, apiKeySet, service, atob).result == Ok(Wav.EncodeWav(Pcm.AudioBuffer(SampleRate, [track])))
  {
    var chunks := PageChunker.ChunkText(text, PageChunker.DefaultMaxLength);
    var runs := PageRuns(apiKeySet, service);
    var decoded := PageDecoded(runs, atob);
    assert !AllWhitespace(text);
    PageRun(text, apiKeySet, service, atob);
    LoopRequests(chunks, runs, decoded);
    LoopTrack(chunks, runs, decoded);
  }
}
