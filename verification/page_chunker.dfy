/** The chunker that the text-to-speech page actually uses
    (pages/TextToSpeechPage.tsx): the trimmed text is cut repeatedly at the
    last sentence ending, else the last space, else hard at `maxLength`
    characters, and every piece is trimmed again. */
module PageChunker {
  import opened Common
  import opened Strings

  /** The default of the `maxLength` parameter, the value the page uses. */
  const DefaultMaxLength: nat := 4500

  /** The characters the page treats as sentence endings. */
  predicate IsSentenceEnding(c: char)
  {
    c == '.' || c == '!' || c == '?' || c == '\n'
  }

  /** `String.prototype.lastIndexOf` for a single character: -1 when absent. */
  function LastIndexOf(s: string, c: char): (r: int)
    ensures -1 <= r < |s|
    ensures r >= 0 ==> s[r] == c
    ensures forall j :: r < j < |s| ==> s[j] != c
  {
    if s == [] then -1
    else if s[|s| - 1] == c then |s| - 1
    else LastIndexOf(s[..|s| - 1], c)
  }

  function Max(a: int, b: int): int
  {
    if a < b then b else a
  }

  /** The running `Math.max` over the `lastIndexOf` of each sentence ending:
      the last sentence ending in `slice`, or -1 when there is none. */
  function LastSentenceEnding(slice: string): (r: int)
    ensures -1 <= r < |slice|
    ensures r >= 0 ==> IsSentenceEnding(slice[r])
    ensures forall j :: r < j < |slice| ==> !IsSentenceEnding(slice[j])
  {
    var dot := LastIndexOf(slice, '.');
    var bang := LastIndexOf(slice, '!');
    var question := LastIndexOf(slice, '?');
    var newline := LastIndexOf(slice, '\n');
    Max(Max(Max(Max(-1, dot), bang), question), newline)
  }

  /** Where the next chunk ends, within the first `maxLength` characters:
      just after the last sentence ending; failing that, just after the last
      space; failing that, at `maxLength`. `CutIndexChoice` states the choice. */
  function CutIndex(rem: string, maxLength: nat): (r: nat)
    requires 1 <= maxLength < |rem|
    ensures 1 <= r <= maxLength
  {
    var slice := rem[..maxLength];
    var ending := LastSentenceEnding(slice);
    if ending > -1 then
      ending + 1
    else
      var space := LastIndexOf(slice, ' ');
      if space > -1 then space + 1 else maxLength
  }

  /** The cut falls after the last sentence ending among the first
      `maxLength` characters; without one, after the last space; without
      either, at `maxLength`. */
  lemma CutIndexChoice(rem: string, maxLength: nat)
    requires 1 <= maxLength < |rem|
    ensures var r := CutIndex(rem, maxLength);
            && ((exists i :: 0 <= i < maxLength && IsSentenceEnding(rem[i])) ==>
                  IsSentenceEnding(rem[r - 1]) && forall j :: r <= j < maxLength ==> !IsSentenceEnding(rem[j]))
            && ((forall i :: 0 <= i < maxLength ==> !IsSentenceEnding(rem[i])) &&
                (exists i :: 0 <= i < maxLength && rem[i] == ' ') ==>
                  rem[r - 1] == ' ' && forall j :: r <= j < maxLength ==> rem[j] != ' ')
            && ((forall i :: 0 <= i < maxLength ==> !IsSentenceEnding(rem[i]) && rem[i] != ' ') ==>
                  r == maxLength)
  {
    var slice := rem[..maxLength];
    assert forall i :: 0 <= i < maxLength ==> slice[i] == rem[i];
  }

  /** The `while` loop of the page's `chunkText`, on the remaining text.
      `SplitLoopWellFormed` and `SplitLoopReassembles` state what it yields. */
  function SplitLoop(rem: string, maxLength: nat): (r: seq<string>)
    requires maxLength >= 1
    ensures r == [] <==> rem == []
    ensures |r| <= |rem|
    decreases |rem|
  {
    if |rem| == 0 then []
    else if |rem| <= maxLength then [rem]
    else
      var cut := CutIndex(rem, maxLength);
      var piece, next := Trim(rem[..cut]), Trim(rem[cut..]);
      assert |piece| <= maxLength && |next| < |rem|;
      [piece] + SplitLoop(next, maxLength)
  }

  /** `chunks.filter(chunk => chunk.length > 0)`: the non-empty chunks, and
      all of them; `DropEmptyAppend` adds that their order is kept. */
  function DropEmpty(chunks: seq<string>): (r: seq<string>)
    ensures |r| <= |chunks|
    ensures forall j :: 0 <= j < |r| ==> |r[j]| > 0
    ensures forall c :: c in r <==> c in chunks && |c| > 0
  {
    if chunks == [] then []
    else (if |chunks[0]| > 0 then [chunks[0]] else []) + DropEmpty(chunks[1..])
  }

  /** The filter works chunk by chunk: filtering two lists one after the
      other is filtering their concatenation, so the kept chunks stay in
      their order. */
  lemma {:induction false} DropEmptyAppend(a: seq<string>, b: seq<string>)
    ensures DropEmpty(a + b) == DropEmpty(a) + DropEmpty(b)
  {
    if a != [] {
      assert (a + b)[1..] == a[1..] + b;
      DropEmptyAppend(a[1..], b);
    } else {
      assert a + b == b;
    }
  }

  /** The page's `chunkText(text, maxLength)`: no more chunks than
      characters, and no empty chunk; `ChunkTextEmpty`, `ChunkTextShape` and
      `ChunkTextFits` state the rest. The source loops forever when
      `maxLength` is below 1, hence the precondition. */
  function ChunkText(text: string, maxLength: nat): (r: seq<string>)
    requires maxLength >= 1
    ensures |r| <= |text|
    ensures forall j :: 0 <= j < |r| ==> |r[j]| > 0
  {
    if text == [] then [] else DropEmpty(SplitLoop(Trim(text), maxLength))
  }

  /** `s` is `chunks[0] ++ w1 ++ chunks[1] ++ w2 ++ ...`, where each gap `wi`
      is the (possibly empty) run of whitespace before the next chunk. */
  predicate Reassembles(chunks: seq<string>, s: string)
    decreases |chunks|
  {
    if chunks == [] then s == []
    else
      && |chunks[0]| <= |s|
      && s[..|chunks[0]|] == chunks[0]
      && Reassembles(chunks[1..], TrimStart(s[|chunks[0]|..]))
  }

  /** A chunk as the page emits it: 1..maxLength characters, trimmed. */
  predicate WellFormedChunk(c: string, maxLength: nat)
  {
    0 < |c| <= maxLength && IsTrimmed(c)
  }

  /** Trimming a string that starts with a non-whitespace character only
      trims its end, and leaves that first character. */
  lemma TrimHead(head: string)
    requires |head| > 0 && !IsWhitespace(head[0])
    ensures Trim(head) == TrimEnd(head)
    ensures 0 < |Trim(head)| && head[..|Trim(head)|] == Trim(head)
    ensures forall k :: |Trim(head)| <= k < |head| ==> IsWhitespace(head[k])
  {
    assert TrimStart(head) == head;
  }

  /** Trimming a string that ends with a non-whitespace character only trims its start. */
  lemma TrimTail(tail: string)
    requires |tail| > 0 && !IsWhitespace(tail[|tail| - 1])
    ensures Trim(tail) == TrimStart(tail)
  {
    var t := TrimStart(tail);
    assert t[|t| - 1] == tail[|tail| - 1];
  }

  /** The trimmed head of one cut of a trimmed text is a non-empty prefix of
      it, followed by whitespace up to the cut. */
  lemma CutHead(rem: string, cut: nat)
    requires IsTrimmed(rem) && 1 <= cut < |rem|
    ensures 0 < |Trim(rem[..cut])| <= cut
    ensures rem[..|Trim(rem[..cut])|] == Trim(rem[..cut])
    ensures forall k :: |Trim(rem[..cut])| <= k < cut ==> IsWhitespace(rem[k])
  {
    var head := rem[..cut];
    assert head[0] == rem[0];
    TrimHead(head);
  }

  /** One cut of a trimmed text: the trimmed rest is what follows the trimmed
      head after skipping whitespace. */
  lemma CutPiece(rem: string, cut: nat)
    requires IsTrimmed(rem) && 1 <= cut < |rem|
    ensures 0 < |Trim(rem[..cut])| <= cut
    ensures rem[..|Trim(rem[..cut])|] == Trim(rem[..cut])
    ensures Trim(rem[cut..]) == TrimStart(rem[|Trim(rem[..cut])|..])
  {
    CutHead(rem, cut);
    var c := |Trim(rem[..cut])|;
    var gap := rem[c..cut];
    var tail := rem[cut..];
    assert rem[c..] == gap + tail;
    assert AllWhitespace(gap) by {
      assert forall k :: 0 <= k < |gap| ==> gap[k] == rem[c + k];
    }
    TrimStartSkipsWhitespace(gap, tail);
    assert tail[|tail| - 1] == rem[|rem| - 1];
    TrimTail(tail);
  }

  /** The loop on a non-empty trimmed text: the first chunk, and the text
      the loop continues on. */
  lemma SplitLoopStep(rem: string, maxLength: nat)
    requires maxLength >= 1 && IsTrimmed(rem) && |rem| > maxLength
    ensures var cut := CutIndex(rem, maxLength);
            var next := Trim(rem[cut..]);
            && SplitLoop(rem, maxLength) == [Trim(rem[..cut])] + SplitLoop(next, maxLength)
            && WellFormedChunk(Trim(rem[..cut]), maxLength)
            && |next| < |rem| && IsTrimmed(next)
            && rem[..|Trim(rem[..cut])|] == Trim(rem[..cut])
            && TrimStart(rem[|Trim(rem[..cut])|..]) == next
  {
    CutPiece(rem, CutIndex(rem, maxLength));
  }

  predicate AllWellFormed(chunks: seq<string>, maxLength: nat)
  {
    forall j :: 0 <= j < |chunks| ==> WellFormedChunk(chunks[j], maxLength)
  }

  lemma AllWellFormedCons(c: string, rest: seq<string>, maxLength: nat)
    requires WellFormedChunk(c, maxLength) && AllWellFormed(rest, maxLength)
    ensures AllWellFormed([c] + rest, maxLength)
  {
    var r := [c] + rest;
    forall j | 0 <= j < |r| ensures WellFormedChunk(r[j], maxLength) {
      if j > 0 {
        assert r[j] == rest[j - 1];
      }
    }
  }

  /** Every chunk of the loop holds 1..maxLength characters and is trimmed. */
  lemma {:induction false} SplitLoopWellFormed(rem: string, maxLength: nat)
    requires maxLength >= 1 && IsTrimmed(rem)
    ensures AllWellFormed(SplitLoop(rem, maxLength), maxLength)
    decreases |rem|
  {
    var r := SplitLoop(rem, maxLength);
    if |rem| > maxLength {
      var cut := CutIndex(rem, maxLength);
      var next := Trim(rem[cut..]);
      var c := Trim(rem[..cut]);
      SplitLoopStep(rem, maxLength);
      SplitLoopWellFormed(next, maxLength);
      var rest := SplitLoop(next, maxLength);
      AllWellFormedCons(c, rest, maxLength);
    }
  }

  /** With the whitespace gaps between them, the chunks of the loop rebuild
      the remaining text. */
  lemma {:induction false} SplitLoopReassembles(rem: string, maxLength: nat)
    requires maxLength >= 1 && IsTrimmed(rem)
    ensures Reassembles(SplitLoop(rem, maxLength), rem)
    decreases |rem|
  {
    if |rem| == 0 {
    } else if |rem| <= maxLength {
      assert SplitLoop(rem, maxLength) == [rem];
      assert rem[|rem|..] == [];
      assert [rem][1..] == [];
    } else {
      var cut := CutIndex(rem, maxLength);
      var piece, next := Trim(rem[..cut]), Trim(rem[cut..]);
      SplitLoopStep(rem, maxLength);
      SplitLoopReassembles(next, maxLength);
      ReassemblesCons(piece, SplitLoop(next, maxLength), rem, next);
    }
  }

  /** A chunk that starts the text, followed by chunks that rebuild what is
      left after the whitespace that follows it, rebuild the text. */
  lemma ReassemblesCons(c: string, rest: seq<string>, s: string, next: string)
    requires |c| <= |s| && s[..|c|] == c && TrimStart(s[|c|..]) == next
    requires Reassembles(rest, next)
    ensures Reassembles([c] + rest, s)
  {
    assert ([c] + rest)[1..] == rest;
  }

  /** Every chunk of the loop is well formed, and together with the
      whitespace gaps they rebuild the remaining text. */
  lemma SplitLoopShape(rem: string, maxLength: nat)
    requires maxLength >= 1 && IsTrimmed(rem)
    ensures forall j :: 0 <= j < |SplitLoop(rem, maxLength)| ==> WellFormedChunk(SplitLoop(rem, maxLength)[j], maxLength)
    ensures Reassembles(SplitLoop(rem, maxLength), rem)
  {
    SplitLoopWellFormed(rem, maxLength);
    SplitLoopReassembles(rem, maxLength);
  }

  lemma {:induction false} DropEmptyKeepsNonEmpty(chunks: seq<string>)
    requires forall j :: 0 <= j < |chunks| ==> |chunks[j]| > 0
    ensures DropEmpty(chunks) == chunks
  {
    if chunks != [] {
      DropEmptyKeepsNonEmpty(chunks[1..]);
    }
  }

  /** Empty or whitespace-only text, and only such text, yields no chunks. */
  lemma ChunkTextEmpty(text: string, maxLength: nat)
    requires maxLength >= 1
    ensures ChunkText(text, maxLength) == [] <==> AllWhitespace(text)
  {
    if text != [] {
      var rem := Trim(text);
      SplitLoopShape(rem, maxLength);
      DropEmptyKeepsNonEmpty(SplitLoop(rem, maxLength));
      if rem != [] {
        assert |rem| <= maxLength ==> SplitLoop(rem, maxLength) == [rem];
      }
    }
  }

  /** The chunks hold 1..maxLength characters each, none starts or ends with
      whitespace, and with whitespace gaps between them they rebuild the
      trimmed text in order. The final filter removes nothing. */
  lemma ChunkTextShape(text: string, maxLength: nat)
    requires maxLength >= 1
    ensures forall j :: 0 <= j < |ChunkText(text, maxLength)| ==> WellFormedChunk(ChunkText(text, maxLength)[j], maxLength)
    ensures Reassembles(ChunkText(text, maxLength), Trim(text))
    ensures text != [] ==> ChunkText(text, maxLength) == SplitLoop(Trim(text), maxLength)
  {
    if text != [] {
      SplitLoopShape(Trim(text), maxLength);
      DropEmptyKeepsNonEmpty(SplitLoop(Trim(text), maxLength));
    }
  }

  /** A trimmed text of at most maxLength characters is the one chunk. */
  lemma ChunkTextFits(text: string, maxLength: nat)
    requires maxLength >= 1 && 0 < |Trim(text)| <= maxLength
    ensures ChunkText(text, maxLength) == [Trim(text)]
  {
    var t := Trim(text);
    assert text != [];
    assert SplitLoop(t, maxLength) == [t];
    DropEmptyKeepsNonEmpty([t]);
  }
}
