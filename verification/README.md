# Text-to-speech audio pipeline of StoryTelling-AI-voice-generator, in Dafny

This project models the audio pipeline of the StoryTelling-AI text-to-speech
page. It proves properties of that model. The pipeline has five parts:

- **Text chunking.** The page's own `chunkText` (pages/TextToSpeechPage.tsx)
  trims the text. It then cuts the text repeatedly at the last sentence ending,
  else the last space, else hard at `maxLength`. The sentence-regex
  `chunkText` of utils/textUtils.ts packs the matches of `[^.!?]+[.!?]*` into
  chunks of at most 4500 characters.
- **PCM decoding and buffer concatenation** (utils/audioUtils.ts). `decode`
  and `decodeAudioData` turn a base64 fragment into interleaved 16-bit
  little-endian PCM, divided by 32768. `concatenateAudioBuffers` joins buffers
  channel by channel.
- **WAV encoding** (utils/audioUtils.ts). `audioBufferToWav` writes the 44-byte
  RIFF/WAVE header with a `fmt ` chunk of format tag 1 (WAVE_FORMAT_PCM). It
  then writes channel 0 as clamped, scaled, truncated 16-bit samples. The layout
  follows the "Waveform Audio File Format" chapter of the *Multimedia
  Programming Interface and Data Specifications 1.0*.
- **Retry control** (services/geminiService.ts):
  - the classifiers `isRetryableError` and `formatApiError`;
  - the loop of `generateSpeech`, which makes up to four attempts with
    1000·2^k ms backoff and forwards every streamed audio fragment.
- **The page's `handleGenerateSpeech`** and the error classifier
  `getFriendlyErrorMessage` (utils/errorUtils.ts). The page synthesises the
  chunks one at a time and in order, then joins them and encodes the result.

Modules follow the source files:

| module | file | models |
|---|---|---|
| `Common` | `common.dfy` | `Option`, `Result`, bytes, concatenation of sequences |
| `Strings` | `strings.dfy` | `trim`, `includes`, `toLowerCase` |
| `SentenceChunker` | `sentence_chunker.dfy` | `chunkText` of utils/textUtils.ts |
| `PageChunker` | `page_chunker.dfy` | `chunkText` of pages/TextToSpeechPage.tsx |
| `Pcm` | `pcm.dfy` | `decode`, `decodeAudioData`, `concatenateAudioBuffers` |
| `Wav` | `wav.dfy` | `audioBufferToWav`, and a reader of its output |
| `SpeechService` | `service.dfy` | `isRetryableError`, `formatApiError`, `generateSpeech` |
| `FriendlyErrors` | `errors.dfy` | `getFriendlyErrorMessage` |
| `SpeechPage` | `page.dfy` | `handleGenerateSpeech` |

Inputs from outside the program are parameters:

- Each request's SDK stream is an `Attempt`: the audio field of each stream
  chunk, and the error that ended the attempt, if any.
- Whether an API key is configured is a flag.
- The browser's `atob` is a function parameter.
- What `JSON.parse` makes of an error message is an abstract `ParsedMessage`
  carried with the thrown `Error`.

Several partners check the operations against independent definitions:

- the WAV writer against a reader of the same layout (`Wav.ParseWav`);
- the friendly-error cascade against a first-match search over a rule table;
- the concatenation loops against a functional definition;
- the chunkers against the reassembly of their input.

The scope is what the code does:

- The page synthesises its chunks strictly one after another, and a call
  that throws aborts the whole run; its message becomes the page's error
  (pages/TextToSpeechPage.tsx:109-139).
- `concatenateAudioBuffers([])` gives a one-frame silent buffer
  (utils/audioUtils.ts:56-58).

## Model

| member | source | states |
|---|---|---|
| Strings.Trim | pages/TextToSpeechPage.tsx:18 | the result is the input with only a leading and a trailing whitespace run removed: it sits in the input at some offset with nothing but whitespace before and after it, neither starts nor ends with whitespace, and is empty exactly when the input is all whitespace |
| Strings.TrimStartSkipsWhitespace | pages/TextToSpeechPage.tsx:49 | whitespace in front of a text does not change what trimming its start leaves |
| Strings.ToLower | utils/errorUtils.ts:8 | lower-casing keeps the length and maps every character through the ASCII case mapping |
| Strings.Contains | utils/errorUtils.ts:10 | `includes` holds exactly when the needle occurs at some index of the text |
| SentenceChunker.SentenceRunsCover | utils/textUtils.ts:15 | the regex matches, concatenated in order, are exactly the text without its leading run of '.', '!', '?' |
| SentenceChunker.SentenceRunsShape | utils/textUtils.ts:15 | each match is non-terminators followed by terminators, and every match but the last ends in a terminator, so matches are maximal |
| SentenceChunker.SentenceRunsEmpty | utils/textUtils.ts:15-17 | the regex finds no match exactly when every character is '.', '!' or '?' |
| SentenceChunker.LongSlices | utils/textUtils.ts:35-38 | a sentence over 4500 characters yields at least one slice, each of exactly 4500 characters |
| SentenceChunker.LongRemainder | utils/textUtils.ts:39 | what is left of a long sentence holds between 1 and 4500 characters |
| SentenceChunker.LongSentenceSplit | utils/textUtils.ts:34-39 | the slices followed by the remainder rebuild the long sentence |
| SentenceChunker.ChunkText | utils/textUtils.ts:9-20 | empty text gives no chunks; non-empty text made only of terminators is returned whole as one chunk, however long |
| SentenceChunker.SentenceRuns | utils/textUtils.ts:15 | no match is empty; SentenceRunsCover, SentenceRunsShape and SentenceRunsEmpty state which they are |
| SentenceChunker.Step | utils/textUtils.ts:26-48 | an iteration never reduces the pushed chunks; StepContent and StepBounded state what it pushes |
| SentenceChunker.Run | utils/textUtils.ts:25-49 | the loop never reduces the pushed chunks; RunContent, RunBounded and RunSplit state the rest |
| SentenceChunker.Finish | utils/textUtils.ts:25-53 | the final push never reduces the chunks; FinishContent, FinishBounded and FinishExtends state the rest |
| SentenceChunker.StepContent | utils/textUtils.ts:26-48 | one iteration neither loses nor reorders text: pushed chunks plus the current chunk grow by exactly the sentence |
| SentenceChunker.RunContent | utils/textUtils.ts:25-49 | after the loop, pushed chunks plus the current chunk are the processed sentences in order |
| SentenceChunker.FinishContent | utils/textUtils.ts:25-53 | the emitted chunks, concatenated, are the sentences in order |
| SentenceChunker.StepBounded | utils/textUtils.ts:26-48 | an iteration keeps every pushed chunk and the current chunk within 1..4500 characters |
| SentenceChunker.RunBounded | utils/textUtils.ts:25-49 | the whole loop keeps every chunk within 1..4500 characters |
| SentenceChunker.FinishBounded | utils/textUtils.ts:51-53 | every emitted chunk, including the final push, holds 1..4500 characters |
| SentenceChunker.FinishExtends | utils/textUtils.ts:25-53 | chunks already pushed are never changed, and no later cut falls before the end of the current chunk |
| SentenceChunker.RunSplit | utils/textUtils.ts:25-49 | running the loop over some sentences and then the rest equals running it over all of them |
| SentenceChunker.CurrentStartsNextChunk | utils/textUtils.ts:43-53 | a non-empty current chunk is the beginning of the next chunk emitted |
| SentenceChunker.ShortSentenceKept | utils/textUtils.ts:43-48 | a sentence of at most 4500 characters is never split between two chunks |
| SentenceChunker.LongSentenceSliced | utils/textUtils.ts:27-40 | a long sentence is emitted as consecutive exact-size slices at its own offset, and the next chunk starts with its remainder |
| SentenceChunker.ChunkTextBounded | utils/textUtils.ts:27-53 | when the text has a non-terminator, every chunk holds 1..4500 characters |
| SentenceChunker.ChunkTextReassembles | utils/textUtils.ts:15-53 | the chunks, concatenated, are the text with only its leading terminators removed, in order |
| SentenceChunker.ChunkTextKeepsSentences | utils/textUtils.ts:43-48 | no cut between chunks falls inside a sentence run of at most 4500 characters |
| SentenceChunker.RunFits | utils/textUtils.ts:43-48 | sentences that fit together with the current chunk are appended to it without any push |
| SentenceChunker.ShortTextSingleChunk | utils/textUtils.ts:43-55 | a text of at most 4500 characters with a non-terminator becomes exactly one chunk |
| PageChunker.LastIndexOf | pages/TextToSpeechPage.tsx:38 | `lastIndexOf` is -1 when the character is absent, else an index holding it with no occurrence after it |
| PageChunker.LastSentenceEnding | pages/TextToSpeechPage.tsx:29-33 | the running maximum is -1 when the slice has no '.', '!', '?' or newline, else the position of the last one |
| PageChunker.CutIndex | pages/TextToSpeechPage.tsx:26-46 | every cut takes between 1 and maxLength characters, so the loop makes progress |
| PageChunker.CutIndexChoice | pages/TextToSpeechPage.tsx:35-46 | the cut falls just after the last sentence ending in the first maxLength characters; else just after the last space; else at maxLength |
| PageChunker.CutPiece | pages/TextToSpeechPage.tsx:48-49 | the pushed piece is a non-empty prefix of the remaining text, and the new remaining text is what follows it after the whitespace |
| PageChunker.SplitLoopStep | pages/TextToSpeechPage.tsx:20-49 | one iteration pushes a trimmed chunk of 1..maxLength characters and continues on a shorter trimmed text |
| PageChunker.SplitLoopWellFormed | pages/TextToSpeechPage.tsx:20-49 | every chunk of the loop holds 1..maxLength characters and neither starts nor ends with whitespace |
| PageChunker.SplitLoopReassembles | pages/TextToSpeechPage.tsx:20-49 | the chunks, with a whitespace-only gap between consecutive ones, rebuild the remaining text in order |
| PageChunker.ReassemblesCons | pages/TextToSpeechPage.tsx:48-49 | a first chunk that starts the text, followed by chunks rebuilding the rest after its whitespace gap, rebuilds the text |
| PageChunker.SplitLoop | pages/TextToSpeechPage.tsx:20-49 | the loop yields no chunk exactly for empty text and never more chunks than characters; SplitLoopStep, SplitLoopWellFormed and SplitLoopReassembles state its chunks |
| PageChunker.DropEmpty | pages/TextToSpeechPage.tsx:52 | the filter keeps a chunk exactly when it is one of the input chunks and non-empty, and never adds one |
| PageChunker.DropEmptyAppend | pages/TextToSpeechPage.tsx:52 | filtering distributes over concatenation, so the kept chunks stay in input order |
| PageChunker.DropEmptyKeepsNonEmpty | pages/TextToSpeechPage.tsx:52 | the filter removes nothing when every chunk is non-empty |
| PageChunker.ChunkTextEmpty | pages/TextToSpeechPage.tsx:15-20 | empty or whitespace-only text, and only such text, yields no chunks |
| PageChunker.ChunkTextShape | pages/TextToSpeechPage.tsx:13-53 | every chunk holds 1..maxLength characters with no whitespace at either end, and with whitespace gaps the chunks rebuild the trimmed text |
| PageChunker.ChunkTextFits | pages/TextToSpeechPage.tsx:21-24 | a trimmed text of at most maxLength characters is returned as the single chunk |
| PageChunker.ChunkText | pages/TextToSpeechPage.tsx:13-53 | no chunk is empty and there are no more chunks than characters; ChunkTextEmpty, ChunkTextShape and ChunkTextFits state the chunks |
| Common.CodeUnitBytes | utils/audioUtils.ts:9-14 | one byte per character, equal to its code whenever that is below 256, as both `decode` and `writeString` store them |
| Pcm.BytesToBinaryString | utils/audioUtils.ts:7-15 | `decode` takes the binary string of any bytes back to exactly those bytes |
| Pcm.Int16At | utils/audioUtils.ts:33 | element k of the `Int16Array` is the signed little-endian field at bytes 2k and 2k+1, in [-32768, 32767] |
| Pcm.FrameCount | utils/audioUtils.ts:35 | the frame count is the largest n whose 2·n·channels bytes fit in the data; DecodeAudioData builds a buffer of that many frames |
| Pcm.DecodeAudioData | utils/audioUtils.ts:26-47 | decoding succeeds exactly for an even byte count and a shape `createBuffer` accepts; an odd count is a RangeError; the buffer has the given rate, channel count and (bytes/2)/channels frames |
| Pcm.DecodedLayout | utils/audioUtils.ts:38-44 | frame i of channel c is the 16-bit value at interleaved index i·channels + c, divided by 32768 |
| Pcm.DecodedRange | utils/audioUtils.ts:43 | every decoded sample lies in [-1, 32767/32768] |
| Pcm.ChannelPrefixFlatten | utils/audioUtils.ts:66-73 | a joined channel is the buffers' channels laid end to end |
| Pcm.Concatenate | utils/audioUtils.ts:56-74 | no buffers give a one-frame silent mono buffer; otherwise rate and channel count come from the first buffer, the length is the sum of the lengths, and each channel is the inputs' channels in order; it fails exactly when a later buffer lacks one of the first one's channels |
| Pcm.ConcatenatePlacesInputs | utils/audioUtils.ts:66-73 | input k sits unchanged in every channel at the offset equal to the total length of inputs 0..k-1 |
| Pcm.CopyInto | utils/audioUtils.ts:69 | `copyToChannel` writes the source at the offset and leaves the samples before and after it alone |
| Pcm.CopyBuffer | utils/audioUtils.ts:68-70 | copying one input into every channel extends each filled prefix by that input, or fails when the input lacks a channel |
| Pcm.ConcatenateAudioBuffers | utils/audioUtils.ts:56-74 | the summing and copying loops compute exactly the functional concatenation |
| Wav.LE16 | utils/audioUtils.ts:113-118 | `setUint16` writes two bytes that read back as the value modulo 2^16 |
| Wav.LE32 | utils/audioUtils.ts:107-116 | `setUint32` writes four bytes that read back as the value modulo 2^32 |
| Wav.LE16Signed | utils/audioUtils.ts:126 | `setInt16` of an in-range value reads back as that signed value |
| Wav.Clamp | utils/audioUtils.ts:89 | the clamped sample lies in [-1, 1] and equals the input when it already did |
| Wav.TruncateTowardZero | utils/audioUtils.ts:90 | the stored integer is the real rounded toward zero |
| Wav.ToInt16 | utils/audioUtils.ts:90 | an `Int16Array` store wraps modulo 2^16 into [-32768, 32767] and keeps in-range values |
| Wav.PcmSample | utils/audioUtils.ts:88-91 | the converted sample is 16-bit, -32768 below -1 and 32767 above 1, and has the sign of the input's scaled value; inside [-1, 0) it is s·32768 truncated toward zero, and inside [0, 1] it is s·32767 truncated toward zero |
| Wav.PcmSamples | utils/audioUtils.ts:85-91 | one 16-bit value per frame of channel 0; WavSampleLayout states that frame i is PcmSample of channel 0's sample i |
| Wav.SampleBytes | utils/audioUtils.ts:125-127 | two bytes per sample; SampleBytesAt states that sample i is the little-endian signed field at byte 2i |
| Wav.PcmSampleMonotone | utils/audioUtils.ts:89-90 | larger samples never convert to smaller integers |
| Wav.SampleRoundTrip | utils/audioUtils.ts:89-90 | a 16-bit value decoded (÷32768) and converted back is unchanged when at most 0 and one lower when positive |
| Wav.SampleBytesAt | utils/audioUtils.ts:125-127 | sample i of the data is the little-endian signed field at byte 2i |
| Wav.Header | utils/audioUtils.ts:105-122 | the header is 44 bytes; WavHeaderLayout states every field and WavRoundTrip reads them back |
| Wav.EncodeWav | utils/audioUtils.ts:93-95 | the file holds 44 + 2n bytes for n frames of channel 0 |
| Wav.WavHeaderLayout | utils/audioUtils.ts:105-122 | the header reads "RIFF", 36+dataSize, "WAVE", "fmt ", 16, 1, channels, rate, rate·channels·2, channels·2, 16, "data", dataSize, each modulo its field width |
| Wav.WavSampleLayout | utils/audioUtils.ts:85-127 | frame i of channel 0, converted, is the signed field at byte 44 + 2i |
| Wav.WavRoundTrip | utils/audioUtils.ts:81-130 | the reader recovers the channel count, the rate and the converted samples of channel 0 from the written file, when no header field wraps |
| Wav.PcmWavRoundTrip | utils/audioUtils.ts:33-127 | mono PCM decoded and written back reads back with the same rate, the same sample count, and each value unchanged when at most 0 and one lower when positive |
| SpeechService.IsRetryableError | services/geminiService.ts:46-60 | only an `Error` whose message parses to an `error` member is ever retried; RetryableIffUnavailableText ties it to formatApiError |
| SpeechService.FormatApiError | services/geminiService.ts:19-39 | the text is always the `Error`'s raw message, the unavailable text, the parsed inner message or the generic text, and the generic text for anything not an `Error` |
| SpeechService.RetryableIffUnavailableText | services/geminiService.ts:19-60 | among parsed `error` members whose own message is not the fixed text, exactly the retryable ones format to the "currently unavailable" text |
| SpeechService.RetryableIffUnavailableTextHolds | services/geminiService.ts:27-28 | a retryable error always formats to the unavailable text |
| SpeechService.StreamAudio | services/geminiService.ts:103-108 | at most one fragment per stream chunk; StreamAudioMembers and StreamAudioAppend state which, in order |
| SpeechService.StreamAudioMembers | services/geminiService.ts:103-108 | a fragment is forwarded exactly when some stream chunk carries it as present, non-empty audio |
| SpeechService.StreamAudioAppend | services/geminiService.ts:103-108 | forwarding a stream split in two forwards the first part's fragments and then the second's |
| SpeechService.Loop | services/geminiService.ts:87-120 | the loop from attempt k makes at least one more attempt and never passes attempt 4 |
| SpeechService.GenerateSpeech | services/geminiService.ts:84-87 | a call makes between 1 and MAX_RETRIES + 1 = 4 attempts |
| SpeechService.LoopStops | services/geminiService.ts:110-118 | every attempt before the last failed with a retryable error, and the last did not or was the fourth |
| SpeechService.Notice | services/geminiService.ts:112-113 | the notice before retry k + 1 names attempt k + 1 of MAX_RETRIES and waits at least INITIAL_DELAY, exactly that before the first retry; LoopNotices and RetrySchedule place the notices in the run |
| SpeechService.NoticeDoubles | services/geminiService.ts:112 | each retry's delay is twice the previous one's and names the next attempt |
| SpeechService.ThrownMessageText | services/geminiService.ts:117 | the thrown message is "Failed to generate speech: " followed by the generic text for a non-error value, and otherwise by the raw message, the unavailable text, the generic text or the parsed inner message; LoopError states when the loop throws it |
| SpeechService.LoopNotices | services/geminiService.ts:111-113 | each retry is announced once, in order, with the notice for its attempt number |
| SpeechService.LoopForwards | services/geminiService.ts:103-114 | the fragments of every attempt made are forwarded in attempt order, including those of attempts that failed part-way |
| SpeechService.LoopError | services/geminiService.ts:110-118 | the loop throws exactly when its last attempt failed, with "Failed to generate speech: " and that attempt's formatted error |
| SpeechService.RetrySchedule | services/geminiService.ts:111-114 | the notices are a prefix of (1, 3, 1000), (2, 3, 2000), (3, 3, 4000), one per retry |
| SpeechService.NonRetryableThrowsAtOnce | services/geminiService.ts:110-118 | a non-retryable first failure ends the call after one attempt, with no retry, throwing its formatted error |
| SpeechService.FourthRetryableThrows | services/geminiService.ts:110-118 | four retryable failures end the call after four attempts and three notices, throwing the unavailable text |
| SpeechService.SuccessForwardsEverything | services/geminiService.ts:103-114 | a call throws exactly when its last attempt failed, and it forwards the fragments of every attempt it made, in order |
| SpeechService.MissingKeyPhraseIn | services/geminiService.ts:72 | the message thrown without an API key holds the missing-key phrase, whatever precedes it |
| SpeechService.MissingKeyReported | services/geminiService.ts:69-75 | without an API key the call makes one attempt, forwards nothing, and throws a message that the friendly-error cascade reports as a missing key |
| FriendlyErrors.GetFriendlyErrorMessage | utils/errorUtils.ts:6-50 | anything not an `Error` gets the generic text; CascadeIsFirstMatch, ResultIsKnown and CaseInsensitive state the rest |
| FriendlyErrors.FirstMatch | utils/errorUtils.ts:10-42 | the reference search returns nothing exactly when no rule matches, and otherwise the text of a matching rule with no match before it |
| FriendlyErrors.CascadeIsFirstMatch | utils/errorUtils.ts:6-50 | the cascade equals the first-match search over the rule table on the lower-cased message, falling back to the original message |
| FriendlyErrors.FirstRuleWins | utils/errorUtils.ts:10-42 | the first rule whose needle occurs in the lower-cased message decides the text |
| FriendlyErrors.NoRuleKeepsMessage | utils/errorUtils.ts:44-45 | without any needle the original message is returned unchanged, in its original case |
| FriendlyErrors.ResultIsKnown | utils/errorUtils.ts:6-50 | the result is one of the seven rule texts or the original message of an `Error`, and the generic text otherwise |
| FriendlyErrors.CaseInsensitive | utils/errorUtils.ts:8 | messages equal up to case get the same text, unless both fall back to their own wording |
| FriendlyErrors.QuotaBeatsServerError | utils/errorUtils.ts:20-32 | a message with both "quota" and "503" gets the quota text once no key rule matches |
| FriendlyErrors.ServerCodeAnywhere | utils/errorUtils.ts:30-32 | "500" or "503" anywhere, even inside a longer number, gives the unavailable text once no earlier rule matches |
| FriendlyErrors.MissingKeyMessage | utils/errorUtils.ts:10-12 | a message whose lower-cased form holds the missing-key needle gets the missing-key text |
| FriendlyErrors.MissingKeyPhraseMatches | utils/errorUtils.ts:8-10 | the phrase as the service writes it, upper-case `API_KEY` included, lower-cases to the needle |
| SpeechPage.DecodeFragment | pages/TextToSpeechPage.tsx:114-117 | a fragment that decodes gives a mono 24 kHz buffer |
| SpeechPage.DecodeAll | pages/TextToSpeechPage.tsx:113-117 | a chunk collects at most one mono buffer per forwarded fragment; DecodeAllOne and DecodeAllAppend state which buffers, in order |
| SpeechPage.DecodeAllOne | pages/TextToSpeechPage.tsx:114-117 | one fragment adds its decoded buffer when it decodes, and nothing when it does not |
| SpeechPage.DecodeAllAppend | pages/TextToSpeechPage.tsx:113-117 | the fragments forwarded one after the other give their buffers one after the other, so fragment order is kept |
| SpeechPage.MonoConcatenates | pages/TextToSpeechPage.tsx:121-129 | concatenating mono 24 kHz buffers never fails and gives a mono 24 kHz buffer |
| SpeechPage.Join | pages/TextToSpeechPage.tsx:122 | joining mono buffers gives a mono 24 kHz buffer; JoinSamples states its samples |
| SpeechPage.JoinSamples | pages/TextToSpeechPage.tsx:122-129 | joining mono buffers lays their samples end to end |
| SpeechPage.ChunkAudio | pages/TextToSpeechPage.tsx:121-124 | a chunk contributes at most one buffer list, and none exactly when it collected no buffer; ContributionSamples and ProcessTrack state the samples it adds |
| SpeechPage.FinalBuffers | pages/TextToSpeechPage.tsx:121-124 | one mono buffer per chunk that produced audio; ContributionSamples and ProcessTrack state their samples |
| SpeechPage.ProcessChunks | pages/TextToSpeechPage.tsx:109-125 | at most one request per chunk, a request whenever a chunk is left, and no more audio entries than requests; ProcessPrefix, ProcessCompletes, ProcessFails, ProcessTrack and ProcessNoAudio state which |
| SpeechPage.ProcessPrefix | pages/TextToSpeechPage.tsx:109-110 | the chunks are sent in index order, one request each, as a prefix of the chunk list |
| SpeechPage.ProcessCompletes | pages/TextToSpeechPage.tsx:109-125 | a loop that ends without an error sent every chunk, and every call succeeded |
| SpeechPage.ProcessFails | pages/TextToSpeechPage.tsx:119-139 | a loop that ends with an error stopped right after the first call that threw, and reports that call's message |
| SpeechPage.ContributionSamples | pages/TextToSpeechPage.tsx:121-124 | a chunk adds exactly the samples of its decoded fragments, and nothing when it has none |
| SpeechPage.ProcessTrack | pages/TextToSpeechPage.tsx:109-125 | without an error, the joined buffers hold every chunk's decoded fragments, in chunk order and fragment order |
| SpeechPage.ProcessNoAudio | pages/TextToSpeechPage.tsx:121-127 | the loop collects no buffer exactly when no chunk produced audio |
| SpeechPage.HandleGenerateSpeech | pages/TextToSpeechPage.tsx:78-144 | no request is sent exactly for blank text, and a produced file is longer than its 44-byte header; PageRequestsInOrder, PageNoAudio and PageWav state the rest |
| SpeechPage.BlankTextRefused | pages/TextToSpeechPage.tsx:79-82 | blank text shows "Please enter some text." and sends no request |
| SpeechPage.LoopRequests | pages/TextToSpeechPage.tsx:109-125 | the loop sends a non-empty prefix of the chunks: all when every call succeeds, else up to the first failing one, whose error it reports |
| SpeechPage.PageRequestsInOrder | pages/TextToSpeechPage.tsx:103-139 | the page sends its chunks in order, all of them when every call succeeds, and otherwise shows the first failing call's message |
| SpeechPage.LoopTrack | pages/TextToSpeechPage.tsx:109-130 | when every call succeeds, the joined track is one mono 24 kHz buffer holding every chunk's samples in order, unless no chunk produced audio |
| SpeechPage.PageNoAudio | pages/TextToSpeechPage.tsx:127-135 | when every call succeeds, the no-audio error is shown exactly when no chunk produced a decodable fragment, and a WAV file is produced exactly when some chunk did |
| SpeechPage.PageWav | pages/TextToSpeechPage.tsx:127-130 | a produced WAV file means every call succeeded, and it encodes one mono 24 kHz track with every chunk's samples in order |

## Left out

- React rendering, hooks, progress messages, loading flags, object URLs and downloads (pages/TextToSpeechPage.tsx:56-77, 83-92, 111, 128, 131-132, 140-226). They are presentation state and carry no pipeline logic.
- Creating and resuming the `AudioContext` (pages/TextToSpeechPage.tsx:94-101). The model takes its rate to be the 24000 the page asks for.
- The other pages, the other services in services/geminiService.ts, constants.ts and utils/fileUtils.ts. They are not part of the audio pipeline.
- The SDK request itself: the model name, the voice configuration and the network. Each attempt's stream is an input (`SpeechService.Attempt`).
- `createAiInstance` beyond its missing-key check. The SDK client is foreign code.
- `atob`. It is a parameter of the page (`SpeechPage.Atob`), not a base64 decoder.
- `JSON.parse`. Its result is the abstract `ParsedMessage` that travels with each thrown `Error`. A truthy `message` member that is not a string is carried as the text a template literal makes of it (`42` as "42").
- Text outside the Basic Multilingual Plane. A Dafny `char` is a Unicode scalar value, so lengths are counted in code points, not in UTF-16 code units as JavaScript counts them, and a cut never splits a surrogate pair. Both chunkers' 4500 and `maxLength` bounds therefore agree with the source only on text inside that plane.
- Strings.ToLower: maps only 'A'..'Z'; `toLowerCase` outside ASCII is not modelled.
- Float32 sample storage, NaN and infinities. Samples are exact reals.
- The host's byte order for `Int16Array`. It is taken to be little-endian.
- `createBuffer`'s limits on channel count, rate and length. Only its refusal of zero channels or zero frames is modelled.
- `setTimeout` waits and `console.error`. Delays are recorded in the retry notices instead.
- The async `handleAudioChunk` (pages/TextToSpeechPage.tsx:114-117). It is modelled as a synchronous append in stream order. Its promise is never awaited, so a fragment that `atob` or the decoder rejects is dropped and the run goes on.
- The page's catch of errors thrown by `concatenateAudioBuffers` or `audioBufferToWav`. Every collected buffer is mono at 24 kHz, so these cannot fail (`SpeechPage.MonoConcatenates`).
- PageChunker.ChunkText: requires maxLength ≥ 1. With a smaller value the source's loop never ends. The page uses 4500.
- Wav.WavRoundTrip: requires that no header field wraps modulo its width. The wrapped values themselves are stated by Wav.WavHeaderLayout.
- SpeechPage.PageWav: states the track only for runs that produced a file. SpeechPage.PageNoAudio states when a file is produced, and SpeechPage.PageRequestsInOrder covers failing calls.
- SentenceChunker.ChunkTextBounded: requires a non-terminator in the text. A text of terminators only is returned whole, as SentenceChunker.ChunkText states, and may exceed 4500 characters.
- The sentence-regex `chunkText` of utils/textUtils.ts is modelled as written, although the page uses its own chunker.
