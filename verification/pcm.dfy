/** Raw PCM decoding and buffer concatenation of utils/audioUtils.ts, over an
    abstract Web Audio `AudioBuffer`: one sequence of real-valued samples per
    channel. Samples are exact reals; the host's Float32 storage is not modelled. */
module Pcm {
  import opened Common

  /** The Web Audio `AudioBuffer`: a sample rate and one sample sequence per channel. */
  datatype AudioBuffer = AudioBuffer(sampleRate: nat, channels: seq<seq<real>>)
  {
    function NumberOfChannels(): nat
    {
      |channels|
    }

    /** What `createBuffer` guarantees: at least one channel, at least one
        frame, and the same number of frames in every channel. */
    predicate Valid()
    {
      && |channels| > 0
      && |channels[0]| > 0
      && forall c :: 0 <= c < |channels| ==> |channels[c]| == |channels[0]|
    }

    function Length(): nat
      requires Valid()
    {
      |channels[0]|
    }
  }

  /** The exceptions the host raises on the paths modelled here. */
  datatype AudioError =
    | RangeError          // an `Int16Array` over an odd number of bytes
    | NotSupportedError   // `createBuffer` with no channel or no frame
    | IndexSizeError      // `getChannelData` of a channel the buffer lacks

  /** The binary string `atob` yields for some bytes: one character per byte.
      The loop of `decode` (lines 9-14) takes it back to exactly those bytes. */
  function BytesToBinaryString(b: seq<byte>): (s: string)
    ensures |s| == |b| && forall i :: 0 <= i < |s| ==> s[i] as int < 256
    ensures CodeUnitBytes(s) == b
  {
    seq(|b|, i requires 0 <= i < |b| => b[i] as int as char)
  }

  /** Element `k` of `new Int16Array(data.buffer)`: the signed
      little-endian field at bytes 2k and 2k+1. */
  function Int16At(data: seq<byte>, k: nat): (v: int)
    requires 2 * k + 1 < |data|
    ensures -32768 <= v <= 32767
  {
    ReadI16(data, 2 * k)
  }

  /** The frame count of line 35 as `createBuffer` receives it: the `Int16Array`
      length divided by the channel count, rounded down, which is the largest
      number of whole frames the bytes hold. */
  function FrameCount(byteLength: nat, numChannels: nat): (n: nat)
    requires numChannels >= 1
    ensures 2 * n * numChannels <= byteLength < 2 * (n + 1) * numChannels
  {
    byteLength / 2 / numChannels
  }

  lemma FrameIndexInRange(byteLength: nat, numChannels: nat, i: nat, c: nat)
    requires numChannels >= 1 && i < FrameCount(byteLength, numChannels) && c < numChannels
    ensures 2 * (i * numChannels + c) + 1 < byteLength
  {
    var frames := FrameCount(byteLength, numChannels);
    assert i * numChannels + c < (i + 1) * numChannels;
    assert (i + 1) * numChannels <= frames * numChannels by {
      assert i + 1 <= frames;
    }
    assert frames * numChannels <= byteLength / 2;
  }

  /** Sample `i` of channel `c`: the interleaved 16-bit value divided by 32768. */
  function DecodedSample(data: seq<byte>, numChannels: nat, i: nat, c: nat): real
    requires numChannels >= 1 && i < FrameCount(|data|, numChannels) && c < numChannels
  {
    FrameIndexInRange(|data|, numChannels, i, c);
    Int16At(data, i * numChannels + c) as real / 32768.0
  }

  /** `decodeAudioData`: the bytes as interleaved little-endian 16-bit PCM.
      It fails when the bytes cannot form an `Int16Array` (odd length) and
      when `createBuffer` refuses the shape (no channel or no whole frame). */
  function DecodeAudioData(data: seq<byte>, sampleRate: nat, numChannels: int): (r: Result<AudioBuffer, AudioError>)
    ensures r.Ok? <==> |data| % 2 == 0 && numChannels >= 1 && FrameCount(|data|, numChannels) >= 1
    ensures r.Err? ==> (r.error == RangeError <==> |data| % 2 != 0)
    ensures r.Ok? ==> && r.value.Valid()
                      && r.value.sampleRate == sampleRate
                      && r.value.NumberOfChannels() == numChannels
                      && r.value.Length() == |data| / 2 / numChannels
  {
    if |data| % 2 != 0 then Err(RangeError)
    else if numChannels < 1 || FrameCount(|data|, numChannels) == 0 then Err(NotSupportedError)
    else
      var frames := FrameCount(|data|, numChannels);
      Ok(AudioBuffer(sampleRate, seq(numChannels, c requires 0 <= c < numChannels =>
           seq(frames, i requires 0 <= i < frames => DecodedSample(data, numChannels, i, c)))))
  }

  /** Frame i of channel c is the interleaved value at index i*numChannels + c,
      over 32768; with one channel, frame i comes from bytes 2i and 2i+1. */
  lemma DecodedLayout(data: seq<byte>, sampleRate: nat, numChannels: int, i: nat, c: nat)
    requires DecodeAudioData(data, sampleRate, numChannels).Ok?
    requires i < DecodeAudioData(data, sampleRate, numChannels).value.Length() && c < numChannels
    ensures 2 * (i * numChannels + c) + 1 < |data|
    ensures DecodeAudioData(data, sampleRate, numChannels).value.channels[c][i]
         == Int16At(data, i * numChannels + c) as real / 32768.0
  {
    FrameIndexInRange(|data|, numChannels, i, c);
  }

  /** Every decoded sample lies in [-1, 32767/32768]. */
  lemma DecodedRange(data: seq<byte>, sampleRate: nat, numChannels: int, i: nat, c: nat)
    requires DecodeAudioData(data, sampleRate, numChannels).Ok?
    requires i < DecodeAudioData(data, sampleRate, numChannels).value.Length() && c < numChannels
    ensures -1.0 <= DecodeAudioData(data, sampleRate, numChannels).value.channels[c][i] <= 32767.0 / 32768.0
  {
    DecodedLayout(data, sampleRate, numChannels, i, c);
  }

  // ---------------------------------------------------------------------
  // concatenateAudioBuffers

  /** The first `k` buffers all have channel `c`. */
  predicate HasChannelUpTo(buffers: seq<AudioBuffer>, k: nat, c: nat)
    requires k <= |buffers|
  {
    forall j :: 0 <= j < k ==> c < buffers[j].NumberOfChannels()
  }

  /** Every buffer has channel `c`. */
  predicate HasChannel(buffers: seq<AudioBuffer>, c: nat)
  {
    HasChannelUpTo(buffers, |buffers|, c)
  }

  /** Every buffer has at least the channels of the first one; otherwise
      `getChannelData` fails on the first buffer that lacks one. */
  predicate ChannelsCovered(buffers: seq<AudioBuffer>)
  {
    forall k :: 0 <= k < |buffers| ==> buffers[0].NumberOfChannels() <= buffers[k].NumberOfChannels()
  }

  predicate AllValid(buffers: seq<AudioBuffer>)
  {
    forall k :: 0 <= k < |buffers| ==> buffers[k].Valid()
  }

  /** The sum of the lengths of the first `k` buffers: where buffer `k` starts. */
  function FramesBefore(buffers: seq<AudioBuffer>, k: nat): nat
    requires AllValid(buffers) && k <= |buffers|
  {
    if k == 0 then 0 else FramesBefore(buffers, k - 1) + buffers[k - 1].Length()
  }

  /** The sum of all the lengths (the `reduce` of line 63). */
  function TotalFrames(buffers: seq<AudioBuffer>): nat
    requires AllValid(buffers)
  {
    FramesBefore(buffers, |buffers|)
  }

  /** Channel `c` of the first `k` buffers, one after the other. */
  function ChannelPrefix(buffers: seq<AudioBuffer>, k: nat, c: nat): seq<real>
    requires k <= |buffers| && HasChannelUpTo(buffers, k, c)
  {
    if k == 0 then [] else ChannelPrefix(buffers, k - 1, c) + buffers[k - 1].channels[c]
  }

  /** Channel `c` of every buffer, one after the other. */
  function ChannelConcat(buffers: seq<AudioBuffer>, c: nat): seq<real>
    requires HasChannel(buffers, c)
  {
    ChannelPrefix(buffers, |buffers|, c)
  }

  lemma {:induction false} ChannelPrefixLength(buffers: seq<AudioBuffer>, k: nat, c: nat)
    requires AllValid(buffers) && k <= |buffers| && HasChannelUpTo(buffers, k, c)
    ensures |ChannelPrefix(buffers, k, c)| == FramesBefore(buffers, k)
  {
    if k > 0 {
      ChannelPrefixLength(buffers, k - 1, c);
    }
  }

  /** Buffer j sits, unchanged, at offset FramesBefore(buffers, j) of channel c. */
  lemma {:induction false} ChannelPrefixAt(buffers: seq<AudioBuffer>, k: nat, c: nat, j: nat, i: nat)
    requires AllValid(buffers) && k <= |buffers| && HasChannelUpTo(buffers, k, c)
    requires j < k && i < buffers[j].Length()
    ensures FramesBefore(buffers, j) + i < |ChannelPrefix(buffers, k, c)|
    ensures ChannelPrefix(buffers, k, c)[FramesBefore(buffers, j) + i] == buffers[j].channels[c][i]
  {
    ChannelPrefixLength(buffers, k - 1, c);
    if j < k - 1 {
      ChannelPrefixAt(buffers, k - 1, c, j, i);
    }
  }

  /** Channel concatenation is the concatenation of the channel sequences. */
  lemma {:induction false} ChannelPrefixFlatten(buffers: seq<AudioBuffer>, k: nat, c: nat)
    requires k <= |buffers| && HasChannelUpTo(buffers, k, c)
    ensures ChannelPrefix(buffers, k, c) == Flatten(seq(k, j requires 0 <= j < k => buffers[j].channels[c]))
  {
    var parts := seq(k, j requires 0 <= j < k => buffers[j].channels[c]);
    if k > 0 {
      ChannelPrefixFlatten(buffers, k - 1, c);
      var initParts := seq(k - 1, j requires 0 <= j < k - 1 => buffers[j].channels[c]);
      assert parts == initParts + [buffers[k - 1].channels[c]];
      FlattenAppend(initParts, [buffers[k - 1].channels[c]]);
      FlattenSingle(buffers[k - 1].channels[c]);
    }
  }

  /** `concatenateAudioBuffers`. With no buffers it is a one-frame silent mono
      buffer at the context's rate. Otherwise channel count and rate come from
      the first buffer, the length is the sum of the lengths, and channel `c`
      is channel `c` of every buffer in order; it fails exactly when some
      buffer has fewer channels than the first. */
  function Concatenate(buffers: seq<AudioBuffer>, contextRate: nat): (r: Result<AudioBuffer, AudioError>)
    requires AllValid(buffers)
    ensures buffers == [] ==> r == Ok(AudioBuffer(contextRate, [[0.0]]))
    ensures r.Err? <==> !ChannelsCovered(buffers)
    ensures r.Ok? ==> r.value.Valid()
    ensures r.Ok? && buffers != [] ==>
      && r.value.NumberOfChannels() == buffers[0].NumberOfChannels()
      && r.value.sampleRate == buffers[0].sampleRate
      && r.value.Length() == TotalFrames(buffers)
      && forall c :: 0 <= c < buffers[0].NumberOfChannels() ==>
           HasChannel(buffers, c) && r.value.channels[c] == ChannelConcat(buffers, c)
  {
    if buffers == [] then Ok(AudioBuffer(contextRate, [[0.0]]))
    else if !ChannelsCovered(buffers) then Err(IndexSizeError)
    else
      var nc := buffers[0].NumberOfChannels();
      assert forall c :: 0 <= c < nc ==> HasChannel(buffers, c);
      var channels := seq(nc, c requires 0 <= c < nc => ChannelConcat(buffers, c));
      assert forall c :: 0 <= c < nc ==> |channels[c]| == TotalFrames(buffers) by {
        forall c | 0 <= c < nc ensures |channels[c]| == TotalFrames(buffers) {
          ChannelPrefixLength(buffers, |buffers|, c);
        }
      }
      Ok(AudioBuffer(buffers[0].sampleRate, channels))
  }

  /** Input k appears unchanged, in order, at offset FramesBefore(buffers, k)
      (the sum of the lengths before it) in every channel of the result. */
  lemma ConcatenatePlacesInputs(buffers: seq<AudioBuffer>, contextRate: nat, k: nat, c: nat, i: nat)
    requires AllValid(buffers) && Concatenate(buffers, contextRate).Ok?
    requires k < |buffers| && c < buffers[0].NumberOfChannels() && i < buffers[k].Length()
    ensures FramesBefore(buffers, k) + i < Concatenate(buffers, contextRate).value.Length()
    ensures Concatenate(buffers, contextRate).value.channels[c][FramesBefore(buffers, k) + i] == buffers[k].channels[c][i]
  {
    ChannelPrefixAt(buffers, |buffers|, c, k, i);
    ChannelPrefixLength(buffers, |buffers|, c);
    ChannelPrefixLength(buffers, |buffers|, 0);
  }

  /** `result.copyToChannel(source, channel, offset)` on one channel's samples. */
  function CopyInto(dest: seq<real>, source: seq<real>, offset: nat): (r: seq<real>)
    requires offset + |source| <= |dest|
    ensures |r| == |dest|
    ensures r[offset..offset + |source|] == source
    ensures r[..offset] == dest[..offset] && r[offset + |source|..] == dest[offset + |source|..]
  {
    dest[..offset] + source + dest[offset + |source|..]
  }

  function Zeros(n: nat): seq<real>
  {
    seq(n, _ => 0.0)
  }

  /** The offset of buffer `k` never passes the total. */
  lemma {:induction false} FramesBeforeMono(buffers: seq<AudioBuffer>, k: nat)
    requires AllValid(buffers) && k <= |buffers|
    ensures FramesBefore(buffers, k) <= TotalFrames(buffers)
    decreases |buffers| - k
  {
    if k < |buffers| {
      FramesBeforeMono(buffers, k + 1);
    }
  }

  /** Copying buffer `k`'s channel `c` at its offset extends the filled prefix. */
  lemma CopyStep(buffers: seq<AudioBuffer>, k: nat, c: nat, dest: seq<real>, total: nat)
    requires AllValid(buffers) && k < |buffers| && HasChannelUpTo(buffers, k + 1, c)
    requires FramesBefore(buffers, k + 1) <= total
    requires dest == ChannelPrefix(buffers, k, c) + Zeros(total - FramesBefore(buffers, k))
    ensures FramesBefore(buffers, k) + |buffers[k].channels[c]| <= |dest|
    ensures CopyInto(dest, buffers[k].channels[c], FramesBefore(buffers, k))
         == ChannelPrefix(buffers, k + 1, c) + Zeros(total - FramesBefore(buffers, k + 1))
  {
    ChannelPrefixLength(buffers, k, c);
  }

  /** The inner loop of lines 68-70: copy buffer `k` into every channel of the
      result at its offset; `ok` is false when `getChannelData` would fail. */
  method CopyBuffer(buffers: seq<AudioBuffer>, k: nat, next: nat, result: seq<seq<real>>, totalLength: nat)
    returns (filled: seq<seq<real>>, ok: bool)
    requires AllValid(buffers) && k < |buffers| && next == k + 1 && FramesBefore(buffers, next) <= totalLength
    requires forall c :: 0 <= c < |result| ==> HasChannelUpTo(buffers, k, c)
    requires forall c :: 0 <= c < |result| ==>
               result[c] == ChannelPrefix(buffers, k, c) + Zeros(totalLength - FramesBefore(buffers, k))
    ensures ok <==> |result| <= buffers[k].NumberOfChannels()
    ensures ok ==> |filled| == |result|
    ensures ok ==> forall c :: 0 <= c < |result| ==> HasChannelUpTo(buffers, next, c)
    ensures ok ==> forall c :: 0 <= c < |result| ==>
              filled[c] == ChannelPrefix(buffers, next, c) + Zeros(totalLength - FramesBefore(buffers, next))
  {
    var b := buffers[k];
    var offset := FramesBefore(buffers, k);
    filled := result;
    for c := 0 to |result|
      invariant |filled| == |result|
      invariant c <= b.NumberOfChannels()
      invariant forall c' :: 0 <= c' < c ==> HasChannelUpTo(buffers, next, c')
      invariant forall c' :: 0 <= c' < c ==> filled[c'] == ChannelPrefix(buffers, next, c') + Zeros(totalLength - FramesBefore(buffers, next))
      invariant forall c' :: c <= c' < |result| ==> filled[c'] == result[c']
    {
      if c >= b.NumberOfChannels() {
        return filled, false;
      }
      assert HasChannelUpTo(buffers, k, c);
      assert HasChannelUpTo(buffers, next, c);
      CopyStep(buffers, k, c, filled[c], totalLength);
      filled := filled[c := CopyInto(filled[c], b.channels[c], offset)];
    }
    ok := true;
  }

  /** The loops of lines 63-73: sum the lengths, allocate a zeroed buffer, copy
      each input into every channel at the running offset. */
  method ConcatenateAudioBuffers(buffers: seq<AudioBuffer>, contextRate: nat) returns (r: Result<AudioBuffer, AudioError>)
    requires AllValid(buffers)
    ensures r == Concatenate(buffers, contextRate)
  {
    if |buffers| == 0 {
      return Ok(AudioBuffer(contextRate, [[0.0]]));
    }
    var nc := buffers[0].NumberOfChannels();
    var sampleRate := buffers[0].sampleRate;
    var totalLength := 0;
    for k := 0 to |buffers|
      invariant totalLength == FramesBefore(buffers, k)
    {
      totalLength := totalLength + buffers[k].Length();
    }
    var result := seq(nc, _ => Zeros(totalLength));
    var offset := 0;
    for k := 0 to |buffers|
      invariant offset == FramesBefore(buffers, k) <= totalLength
      invariant forall j :: 0 <= j < k ==> nc <= buffers[j].NumberOfChannels()
      invariant |result| == nc
      invariant forall c :: 0 <= c < nc ==> HasChannelUpTo(buffers, k, c)
      invariant forall c :: 0 <= c < nc ==> result[c] == ChannelPrefix(buffers, k, c) + Zeros(totalLength - offset)
    {
      FramesBeforeMono(buffers, k + 1);
      var ok;
      result, ok := CopyBuffer(buffers, k, k + 1, result, totalLength);
      if !ok {
        return Err(IndexSizeError);
      }
      offset := offset + buffers[k].Length();
    }
    assert Zeros(0) == [];
    assert forall c :: 0 <= c < nc ==> result[c] == ChannelConcat(buffers, c);
    CopiedAll(buffers, contextRate, result);
    return Ok(AudioBuffer(sampleRate, result));
  }

  /** Once every input is copied into every channel, the result is the
      functional concatenation. */
  lemma CopiedAll(buffers: seq<AudioBuffer>, contextRate: nat, result: seq<seq<real>>)
    requires AllValid(buffers) && buffers != [] && |result| == buffers[0].NumberOfChannels()
    requires forall j :: 0 <= j < |buffers| ==> |result| <= buffers[j].NumberOfChannels()
    requires forall c :: 0 <= c < |result| ==> HasChannelUpTo(buffers, |buffers|, c)
    requires forall c :: 0 <= c < |result| ==> result[c] == ChannelConcat(buffers, c)
    ensures Concatenate(buffers, contextRate) == Ok(AudioBuffer(buffers[0].sampleRate, result))
  {
    assert ChannelsCovered(buffers);
    var expected := Concatenate(buffers, contextRate).value;
    assert |expected.channels| == |result|;
    forall c | 0 <= c < |result|
      ensures result[c] == expected.channels[c]
    {
      assert HasChannel(buffers, c);
    }
    assert expected.channels == result;
  }
}
