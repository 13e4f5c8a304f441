/** `audioBufferToWav` of utils/audioUtils.ts: a RIFF/WAVE file holding
    16-bit linear PCM, laid out as in the "Waveform Audio File Format" chapter
    of the Multimedia Programming Interface and Data Specifications 1.0: a
    12-byte RIFF descriptor, a 24-byte `fmt ` chunk with format tag 1
    (WAVE_FORMAT_PCM) and a `data` chunk, all integers little-endian. Only
    channel 0 of the buffer is written, while the header announces every
    channel (the source assumes mono). A reader of the same layout, `ParseWav`,
    is the independent partner of the writer. */
module Wav {
  import opened Common
  import Pcm

  const HeaderSize: nat := 44
  const BitsPerSample: nat := 16
  const BytesPerSample: nat := 2

  // ---------------------------------------------------------------------
  // Little-endian fields, as `DataView` writes them

  /** `setUint16(o, v, true)`: the value is taken modulo 2^16. */
  function LE16(v: int): (r: seq<byte>)
    ensures |r| == 2 && ReadU16(r, 0) == v % 65536
  {
    var u := v % 65536;
    [(u % 256) as byte, (u / 256) as byte]
  }

  /** `setUint32(o, v, true)`: the value is taken modulo 2^32. */
  function LE32(v: int): (r: seq<byte>)
    ensures |r| == 4 && ReadU32(r, 0) == v % 0x1_0000_0000
  {
    var u := v % 0x1_0000_0000;
    var q1 := u / 256;
    var q2 := q1 / 256;
    var q3 := q2 / 256;
    assert q3 < 256;
    [(u % 256) as byte, (q1 % 256) as byte, (q2 % 256) as byte, q3 as byte]
  }

  /** `setInt16(o, v, true)` of an in-range value reads back as that value. */
  lemma LE16Signed(v: int)
    requires -32768 <= v <= 32767
    ensures ReadI16(LE16(v), 0) == v
  {
  }

  // ---------------------------------------------------------------------
  // Sample conversion (lines 88-91)

  /** `Math.max(-1, Math.min(1, x))`. */
  function Clamp(x: real): (r: real)
    ensures -1.0 <= r <= 1.0
    ensures -1.0 <= x <= 1.0 ==> r == x
  {
    if x < -1.0 then -1.0 else if x > 1.0 then 1.0 else x
  }

  /** The integer part of `x`, rounding toward zero as a typed-array store does. */
  function TruncateTowardZero(x: real): (r: int)
    ensures 0.0 <= x ==> r as real <= x < r as real + 1.0
    ensures x < 0.0 ==> r as real - 1.0 < x <= r as real
  {
    if x >= 0.0 then x.Floor else -((-x).Floor)
  }

  /** `ToInt16`: an integer stored into an `Int16Array` wraps modulo 2^16. */
  function ToInt16(n: int): (r: int)
    ensures -32768 <= r <= 32767
    ensures (r - n) % 65536 == 0
    ensures -32768 <= n <= 32767 ==> r == n
  {
    var u := n % 65536;
    if u >= 32768 then u - 65536 else u
  }

  /** A sample as stored in `pcmData`: clamped to [-1, 1], negatives scaled by
      0x8000 and the rest by 0x7FFF, truncated toward zero. Inside [-1, 1] the
      result is the truncation of s·32768 or s·32767; the extremes map to
      -32768 and 32767 and zero maps to zero. */
  function PcmSample(x: real): (v: int)
    ensures -32768 <= v <= 32767
    ensures x <= -1.0 ==> v == -32768
    ensures x >= 1.0 ==> v == 32767
    ensures v < 0 <==> x * 32768.0 <= -1.0
    ensures v > 0 <==> x * 32767.0 >= 1.0
    ensures -1.0 <= x < 0.0 ==> v as real - 1.0 < x * 32768.0 <= v as real
    ensures 0.0 <= x <= 1.0 ==> v as real <= x * 32767.0 < v as real + 1.0
  {
    var s := Clamp(x);
    var scaled := if s < 0.0 then s * 32768.0 else s * 32767.0;
    ToInt16(TruncateTowardZero(scaled))
  }

  /** Larger samples never convert to smaller integers. */
  lemma PcmSampleMonotone(x: real, y: real)
    requires x <= y
    ensures PcmSample(x) <= PcmSample(y)
  {
    var sx, sy := Clamp(x), Clamp(y);
    assert sx <= sy;
    var ax := if sx < 0.0 then sx * 32768.0 else sx * 32767.0;
    var ay := if sy < 0.0 then sy * 32768.0 else sy * 32767.0;
    assert ax <= ay;
  }

  /** A 16-bit value decoded by `decodeAudioData` (divided by 32768) and
      converted back comes out unchanged when it is at most zero, and one
      lower when it is positive, because positives are scaled by 32767. */
  lemma SampleRoundTrip(v: int)
    requires -32768 <= v <= 32767
    ensures PcmSample(v as real / 32768.0) == if v <= 0 then v else v - 1
  {
    var x := v as real / 32768.0;
    assert Clamp(x) == x;
    if v > 0 {
      assert x * 32767.0 == v as real - x;
      assert 0.0 < x < 1.0;
      assert TruncateTowardZero(x * 32767.0) == v - 1;
    } else if v < 0 {
      assert x * 32768.0 == v as real;
    }
  }

  // ---------------------------------------------------------------------
  // The file

  /** The 44-byte header for `numChannels` channels at `sampleRate` with
      `dataSize` bytes of samples (lines 105-122); `WavHeaderLayout` states
      every field and `WavRoundTrip` reads them back. */
  function Header(numChannels: nat, sampleRate: nat, dataSize: nat): (r: seq<byte>)
    ensures |r| == HeaderSize
  {
    CodeUnitBytes("RIFF") + LE32(36 + dataSize) + CodeUnitBytes("WAVE")
    + CodeUnitBytes("fmt ") + LE32(16) + LE16(1) + LE16(numChannels)
    + LE32(sampleRate) + LE32(sampleRate * numChannels * BytesPerSample)
    + LE16(numChannels * BytesPerSample) + LE16(BitsPerSample)
    + CodeUnitBytes("data") + LE32(dataSize)
  }

  /** The converted samples of channel 0 (lines 85-91). */
  function PcmSamples(buffer: Pcm.AudioBuffer): (r: seq<int>)
    requires buffer.Valid()
    ensures |r| == buffer.Length()
    ensures forall i :: 0 <= i < |r| ==> -32768 <= r[i] <= 32767
  {
    seq(buffer.Length(), i requires 0 <= i < buffer.Length() => PcmSample(buffer.channels[0][i]))
  }

  /** The little-endian bytes of 16-bit samples, two per sample (lines 125-127). */
  function SampleBytes(samples: seq<int>): (r: seq<byte>)
    ensures |r| == BytesPerSample * |samples|
  {
    if samples == [] then [] else LE16(samples[0]) + SampleBytes(samples[1..])
  }

  /** `audioBufferToWav`: the bytes of the blob. */
  function EncodeWav(buffer: Pcm.AudioBuffer): (r: seq<byte>)
    requires buffer.Valid()
    ensures |r| == HeaderSize + BytesPerSample * buffer.Length()
  {
    var samples := PcmSamples(buffer);
    var dataSize := BytesPerSample * |samples|;
    Header(buffer.NumberOfChannels(), buffer.sampleRate, dataSize) + SampleBytes(samples)
  }

  // ---------------------------------------------------------------------
  // Reading a file back

  /** What a reader of a canonical 44-byte-header PCM file recovers. */
  datatype WavFile = WavFile(numChannels: nat, sampleRate: nat, samples: seq<int>)

  predicate TagAt(w: seq<byte>, o: nat, tag: string)
    requires o + |tag| <= |w|
  {
    w[o..o + |tag|] == CodeUnitBytes(tag)
  }

  /** Reads a canonical 16-bit PCM file: the four tags, a `fmt ` chunk of 16
      bytes with format 1 and 16 bits per sample, byte rate and block align
      that agree with the channel count and rate, a RIFF size of 36 plus the
      data size, and exactly that many data bytes. */
  function ParseWav(w: seq<byte>): Option<WavFile>
  {
    if |w| < HeaderSize then None
    else
      var numChannels := ReadU16(w, 22);
      var sampleRate := ReadU32(w, 24);
      var dataSize := ReadU32(w, 40);
      if && TagAt(w, 0, "RIFF") && TagAt(w, 8, "WAVE") && TagAt(w, 12, "fmt ") && TagAt(w, 36, "data")
         && ReadU32(w, 16) == 16 && ReadU16(w, 20) == 1 && ReadU16(w, 34) == BitsPerSample
         && ReadU32(w, 28) == sampleRate * numChannels * BytesPerSample
         && ReadU16(w, 32) == numChannels * BytesPerSample
         && ReadU32(w, 4) == 36 + dataSize
         && |w| == HeaderSize + dataSize && dataSize % 2 == 0
      then
        Some(WavFile(numChannels, sampleRate,
          seq(dataSize / 2, i requires 0 <= i < dataSize / 2 => ReadI16(w, HeaderSize + 2 * i))))
      else None
  }

  /** Sample i of `SampleBytes` is the field at 2i. */
  lemma {:induction false} SampleBytesAt(samples: seq<int>, i: nat)
    requires i < |samples| && -32768 <= samples[i] <= 32767
    ensures ReadI16(SampleBytes(samples), 2 * i) == samples[i]
  {
    var r := SampleBytes(samples);
    if i == 0 {
      LE16Signed(samples[0]);
      assert r[..2] == LE16(samples[0]);
    } else {
      SampleBytesAt(samples[1..], i - 1);
      var rest := SampleBytes(samples[1..]);
      assert r[2 * i] == rest[2 * (i - 1)] && r[2 * i + 1] == rest[2 * (i - 1) + 1];
    }
  }

  lemma ReadU16Slice(w: seq<byte>, o: nat, piece: seq<byte>)
    requires o + |piece| <= |w| && |piece| == 2 && w[o..o + 2] == piece
    ensures ReadU16(w, o) == ReadU16(piece, 0)
  {
    assert w[o] == piece[0] && w[o + 1] == piece[1];
  }

  lemma ReadU32Slice(w: seq<byte>, o: nat, piece: seq<byte>)
    requires o + |piece| <= |w| && |piece| == 4 && w[o..o + 4] == piece
    ensures ReadU32(w, o) == ReadU32(piece, 0)
  {
    assert w[o] == piece[0] && w[o + 1] == piece[1] && w[o + 2] == piece[2] && w[o + 3] == piece[3];
  }

  /** Where the tags and the chunk sizes of the header lie. */
  lemma HeaderChunkPieces(nc: nat, sr: nat, dataSize: nat, w: seq<byte>)
    requires |w| >= HeaderSize && w[..HeaderSize] == Header(nc, sr, dataSize)
    ensures w[0..4] == CodeUnitBytes("RIFF") && w[4..8] == LE32(36 + dataSize)
    ensures w[8..12] == CodeUnitBytes("WAVE") && w[12..16] == CodeUnitBytes("fmt ")
    ensures w[16..20] == LE32(16)
    ensures w[36..40] == CodeUnitBytes("data") && w[40..44] == LE32(dataSize)
  {
    var h := Header(nc, sr, dataSize);
    assert w[0..4] == h[0..4] && w[4..8] == h[4..8] && w[8..12] == h[8..12];
    assert w[12..16] == h[12..16] && w[16..20] == h[16..20];
    assert w[36..40] == h[36..40] && w[40..44] == h[40..44];
  }

  /** Where the format fields of the `fmt ` chunk lie. */
  lemma HeaderFormatPieces(nc: nat, sr: nat, dataSize: nat, w: seq<byte>)
    requires |w| >= HeaderSize && w[..HeaderSize] == Header(nc, sr, dataSize)
    ensures w[20..22] == LE16(1) && w[22..24] == LE16(nc)
    ensures w[24..28] == LE32(sr) && w[28..32] == LE32(sr * nc * BytesPerSample)
    ensures w[32..34] == LE16(nc * BytesPerSample) && w[34..36] == LE16(BitsPerSample)
  {
    var h := Header(nc, sr, dataSize);
    assert w[20..22] == h[20..22] && w[22..24] == h[22..24] && w[24..28] == h[24..28];
    assert w[28..32] == h[28..32] && w[32..34] == h[32..34] && w[34..36] == h[34..36];
  }

  /** The header fields of the file, each as the writer wraps it: RIFF size
      36 + dataSize, `fmt ` size 16, format 1, the channel count, the rate,
      byte rate rate·channels·2, block align channels·2, 16 bits, data size
      2n for n frames of channel 0. */
  lemma WavHeaderLayout(buffer: Pcm.AudioBuffer)
    requires buffer.Valid()
    ensures var w := EncodeWav(buffer);
            var nc := buffer.NumberOfChannels();
            var sr := buffer.sampleRate;
            var dataSize := BytesPerSample * buffer.Length();
            && TagAt(w, 0, "RIFF") && TagAt(w, 8, "WAVE") && TagAt(w, 12, "fmt ") && TagAt(w, 36, "data")
            && ReadU32(w, 4) == (36 + dataSize) % 0x1_0000_0000
            && ReadU32(w, 16) == 16 && ReadU16(w, 20) == 1
            && ReadU16(w, 22) == nc % 65536
            && ReadU32(w, 24) == sr % 0x1_0000_0000
            && ReadU32(w, 28) == (sr * nc * BytesPerSample) % 0x1_0000_0000
            && ReadU16(w, 32) == (nc * BytesPerSample) % 65536
            && ReadU16(w, 34) == BitsPerSample
            && ReadU32(w, 40) == dataSize % 0x1_0000_0000
  {
    var w := EncodeWav(buffer);
    var nc := buffer.NumberOfChannels();
    var sr := buffer.sampleRate;
    var dataSize := BytesPerSample * buffer.Length();
    assert w[..HeaderSize] == Header(nc, sr, dataSize);
    HeaderFields(nc, sr, dataSize, w);
  }

  /** The fields of a file that starts with the header, as `ParseWav` reads them. */
  lemma HeaderFields(nc: nat, sr: nat, dataSize: nat, w: seq<byte>)
    requires |w| >= HeaderSize && w[..HeaderSize] == Header(nc, sr, dataSize)
    ensures && TagAt(w, 0, "RIFF") && TagAt(w, 8, "WAVE") && TagAt(w, 12, "fmt ") && TagAt(w, 36, "data")
            && ReadU32(w, 4) == (36 + dataSize) % 0x1_0000_0000
            && ReadU32(w, 16) == 16 && ReadU16(w, 20) == 1
            && ReadU16(w, 22) == nc % 65536
            && ReadU32(w, 24) == sr % 0x1_0000_0000
            && ReadU32(w, 28) == (sr * nc * BytesPerSample) % 0x1_0000_0000
            && ReadU16(w, 32) == (nc * BytesPerSample) % 65536
            && ReadU16(w, 34) == BitsPerSample
            && ReadU32(w, 40) == dataSize % 0x1_0000_0000
  {
    HeaderChunkPieces(nc, sr, dataSize, w);
    HeaderFormatPieces(nc, sr, dataSize, w);
    HeaderChunkFields(nc, sr, dataSize, w);
    HeaderFormatFields(nc, sr, dataSize, w);
  }

  /** The tags and the chunk sizes of the header. */
  lemma HeaderChunkFields(nc: nat, sr: nat, dataSize: nat, w: seq<byte>)
    requires |w| >= HeaderSize
    requires w[0..4] == CodeUnitBytes("RIFF") && w[4..8] == LE32(36 + dataSize)
    requires w[8..12] == CodeUnitBytes("WAVE") && w[12..16] == CodeUnitBytes("fmt ")
    requires w[16..20] == LE32(16) && w[36..40] == CodeUnitBytes("data") && w[40..44] == LE32(dataSize)
    ensures && TagAt(w, 0, "RIFF") && TagAt(w, 8, "WAVE") && TagAt(w, 12, "fmt ") && TagAt(w, 36, "data")
            && ReadU32(w, 4) == (36 + dataSize) % 0x1_0000_0000
            && ReadU32(w, 16) == 16
            && ReadU32(w, 40) == dataSize % 0x1_0000_0000
  {
    ReadU32Slice(w, 4, LE32(36 + dataSize));
    ReadU32Slice(w, 16, LE32(16));
    ReadU32Slice(w, 40, LE32(dataSize));
  }

  /** The format fields of the `fmt ` chunk. */
  lemma HeaderFormatFields(nc: nat, sr: nat, dataSize: nat, w: seq<byte>)
    requires |w| >= HeaderSize
    requires w[20..22] == LE16(1) && w[22..24] == LE16(nc)
    requires w[24..28] == LE32(sr) && w[28..32] == LE32(sr * nc * BytesPerSample)
    requires w[32..34] == LE16(nc * BytesPerSample) && w[34..36] == LE16(BitsPerSample)
    ensures && ReadU16(w, 20) == 1
            && ReadU16(w, 22) == nc % 65536
            && ReadU32(w, 24) == sr % 0x1_0000_0000
            && ReadU32(w, 28) == (sr * nc * BytesPerSample) % 0x1_0000_0000
            && ReadU16(w, 32) == (nc * BytesPerSample) % 65536
            && ReadU16(w, 34) == BitsPerSample
  {
    ReadU16Slice(w, 20, LE16(1));
    ReadU16Slice(w, 22, LE16(nc));
    ReadU32Slice(w, 24, LE32(sr));
    ReadU32Slice(w, 28, LE32(sr * nc * BytesPerSample));
    ReadU16Slice(w, 32, LE16(nc * BytesPerSample));
    ReadU16Slice(w, 34, LE16(BitsPerSample));
  }

  /** Frame i of channel 0, converted, is the signed field at byte 44 + 2i. */
  lemma WavSampleLayout(buffer: Pcm.AudioBuffer, i: nat)
    requires buffer.Valid() && i < buffer.Length()
    ensures HeaderSize + 2 * i + 2 <= |EncodeWav(buffer)|
    ensures ReadI16(EncodeWav(buffer), HeaderSize + 2 * i) == PcmSample(buffer.channels[0][i])
  {
    var samples := PcmSamples(buffer);
    var w := EncodeWav(buffer);
    var h := Header(buffer.NumberOfChannels(), buffer.sampleRate, BytesPerSample * |samples|);
    var body := SampleBytes(samples);
    SampleBytesAt(samples, i);
    assert w[HeaderSize + 2 * i] == body[2 * i] && w[HeaderSize + 2 * i + 1] == body[2 * i + 1];
  }

  lemma SmallMod(a: nat, m: nat)
    requires a < m
    ensures a % m == a
  {
  }

  lemma MulAtLeast(a: nat, b: nat)
    requires b >= 1
    ensures a <= a * b
  {
  }

  /** A file whose header holds the wrapped values the writer produces parses
      to those values when none of them wraps. */
  lemma ParseWavFields(w: seq<byte>, nc: nat, sr: nat, n: nat)
    requires |w| == HeaderSize + BytesPerSample * n && nc >= 1
    requires nc * BytesPerSample < 65536 && sr * nc * BytesPerSample < 0x1_0000_0000
    requires 36 + BytesPerSample * n < 0x1_0000_0000
    requires TagAt(w, 0, "RIFF") && TagAt(w, 8, "WAVE") && TagAt(w, 12, "fmt ") && TagAt(w, 36, "data")
    requires ReadU32(w, 16) == 16 && ReadU16(w, 20) == 1 && ReadU16(w, 34) == BitsPerSample
    requires ReadU32(w, 4) == (36 + BytesPerSample * n) % 0x1_0000_0000
    requires ReadU16(w, 22) == nc % 65536 && ReadU32(w, 24) == sr % 0x1_0000_0000
    requires ReadU32(w, 28) == (sr * nc * BytesPerSample) % 0x1_0000_0000
    requires ReadU16(w, 32) == (nc * BytesPerSample) % 65536
    requires ReadU32(w, 40) == (BytesPerSample * n) % 0x1_0000_0000
    ensures ParseWav(w) == Some(WavFile(nc, sr,
              seq(n, i requires 0 <= i < n => ReadI16(w, HeaderSize + 2 * i))))
  {
    var dataSize := BytesPerSample * n;
    var byteRate := sr * nc * BytesPerSample;
    MulAtLeast(sr, nc);
    SmallMod(36 + dataSize, 0x1_0000_0000);
    SmallMod(dataSize, 0x1_0000_0000);
    SmallMod(sr, 0x1_0000_0000);
    SmallMod(byteRate, 0x1_0000_0000);
    SmallMod(nc, 65536);
    SmallMod(nc * BytesPerSample, 65536);
    assert dataSize / 2 == n;
  }

  /** Reading the written file gives back the header values and the converted
      samples of channel 0, as long as no header field wraps. */
  lemma {:induction false} WavRoundTrip(buffer: Pcm.AudioBuffer)
    requires buffer.Valid()
    requires buffer.NumberOfChannels() * BytesPerSample < 65536
    requires buffer.sampleRate * buffer.NumberOfChannels() * BytesPerSample < 0x1_0000_0000
    requires 36 + BytesPerSample * buffer.Length() < 0x1_0000_0000
    ensures ParseWav(EncodeWav(buffer)) == Some(WavFile(buffer.NumberOfChannels(), buffer.sampleRate, PcmSamples(buffer)))
  {
    var w := EncodeWav(buffer);
    var n := buffer.Length();
    WavHeaderLayout(buffer);
    ParseWavFields(w, buffer.NumberOfChannels(), buffer.sampleRate, n);
    var samples := seq(n, i requires 0 <= i < n => ReadI16(w, HeaderSize + 2 * i));
    forall i | 0 <= i < n
      ensures samples[i] == PcmSamples(buffer)[i]
    {
      WavSampleLayout(buffer, i);
    }
    assert samples == PcmSamples(buffer);
  }

  /** Mono 16-bit PCM decoded at some rate and written back as a WAV file:
      the file's samples are the original values, except that every positive
      value comes back one lower. */
  lemma {:induction false} PcmWavRoundTrip(data: seq<byte>, sampleRate: nat, i: nat)
    requires Pcm.DecodeAudioData(data, sampleRate, 1).Ok?
    requires sampleRate * BytesPerSample < 0x1_0000_0000 && 36 + |data| < 0x1_0000_0000
    requires 2 * i + 1 < |data|
    ensures var file := ParseWav(EncodeWav(Pcm.DecodeAudioData(data, sampleRate, 1).value));
            && file.Some? && file.value.numChannels == 1 && file.value.sampleRate == sampleRate
            && |file.value.samples| == |data| / 2
            && var v := Pcm.Int16At(data, i);
               file.value.samples[i] == if v <= 0 then v else v - 1
  {
    var buffer := Pcm.DecodeAudioData(data, sampleRate, 1).value;
    assert buffer.Length() == |data| / 2;
    WavRoundTrip(buffer);
    Pcm.DecodedLayout(data, sampleRate, 1, i, 0);
    SampleRoundTrip(Pcm.Int16At(data, i));
  }
}
