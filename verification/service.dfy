/** The text-to-speech part of services/geminiService.ts: the error
    classifiers `isRetryableError` and `formatApiError`, and the retry loop of
    `generateSpeech`. The SDK stream of each attempt is an input: the audio
    fields of the stream chunks it delivers and the error, if any, that ended
    it. The callbacks become outputs: the fragments forwarded to
    `onAudioChunk` and the notices given to `onRetryAttempt`. */
module SpeechService {
  import opened Common
  import FriendlyErrors
  import Strings

  const MaxRetries: nat := 3
  const InitialDelay: nat := 1000

  const GenericMessage: string := "An unexpected error occurred. Please check the console for details."
  const UnavailableMessage: string :=
    "The service is currently unavailable. This is usually a temporary issue. Please try again in a few moments."
  /** The message `createAiInstance` throws without an API key. */
  const MissingKeyMessage: string := "API_KEY environment variable is not set."
  const FailurePrefix: string := "Failed to generate speech: "

  // ---------------------------------------------------------------------
  // Error classification

  /** The `error` member carries code 503 or status "UNAVAILABLE". */
  predicate Unavailable(parsed: ParsedMessage)
    requires parsed.ErrorMember?
  {
    parsed.code == Some(503) || parsed.status == Some("UNAVAILABLE")
  }

  /** `isRetryableError`: only an `Error` whose message parses to an object
      with an unavailable `error` member is retried. */
  function IsRetryableError(error: Thrown): (r: bool)
    ensures r ==> error.Error? && error.parsed.ErrorMember?
  {
    match error
    case NonError => false
    case Error(_, parsed) =>
      match parsed
      case Unparsable => false
      case NoErrorMember => false
      case ErrorMember(_, _, _) => Unavailable(parsed)
  }

  /** `formatApiError`: only ever the raw message of an `Error`, the
      unavailable text, the inner `message` of its parsed `error` member, or
      the generic text; anything but an `Error` gets the generic text. The
      inner message is taken whenever it is truthy, as converted to a string. */
  function FormatApiError(error: Thrown): (r: string)
    ensures error.NonError? ==> r == GenericMessage
    ensures error.Error? ==> || r == error.message || r == UnavailableMessage || r == GenericMessage
                             || (error.parsed.ErrorMember? && error.parsed.message == Some(r))
  {
    match error
    case NonError => GenericMessage
    case Error(message, parsed) =>
      match parsed
      case Unparsable => message
      case NoErrorMember => message
      case ErrorMember(_, _, inner) =>
        if Unavailable(parsed) then UnavailableMessage
        else if inner.Some? then inner.value
        else GenericMessage
  }

  /** Exactly the retryable errors format to the fixed "currently unavailable"
      text, among errors whose message parses to an `error` member. */
  lemma RetryableIffUnavailableText(error: Thrown)
    requires error.Error? && error.parsed.ErrorMember?
    requires error.parsed.message != Some(UnavailableMessage)
    ensures IsRetryableError(error) <==> FormatApiError(error) == UnavailableMessage
  {
  }

  // ---------------------------------------------------------------------
  // The retry loop

  /** One attempt of `generateContentStream`: for each stream chunk, the
      `inlineData.data` of its first part, if present; then the error that
      ended the attempt, if any (from the request or from the stream). */
  datatype Attempt = Attempt(chunks: seq<Option<string>>, failure: Option<Thrown>)

  /** One call of `onRetryAttempt(attempt, maxRetries, delay)`, after which the
      loop waits `delay` milliseconds. */
  datatype RetryNotice = RetryNotice(attempt: nat, maxRetries: nat, delay: nat)

  /** What a call of `generateSpeech` did: the fragments passed to
      `onAudioChunk`, the retry notices, the number of attempts, and the
      message of the error it threw, if any. */
  datatype SpeechRun = SpeechRun(forwarded: seq<string>, retries: seq<RetryNotice>, attemptsMade: nat, error: Option<string>)

  /** A stream chunk's audio is forwarded when present and non-empty. */
  predicate Forwarded(chunk: Option<string>)
  {
    chunk.Some? && chunk.value != ""
  }

  /** The fragments forwarded from a stream, in stream order (lines 103-108). */
  function StreamAudio(chunks: seq<Option<string>>): (r: seq<string>)
    ensures |r| <= |chunks|
  {
    if chunks == [] then []
    else (if Forwarded(chunks[0]) then [chunks[0].value] else []) + StreamAudio(chunks[1..])
  }

  /** Exactly the present, non-empty audio fields are forwarded. */
  lemma {:induction false} StreamAudioMembers(chunks: seq<Option<string>>, s: string)
    ensures s in StreamAudio(chunks) <==> exists i :: 0 <= i < |chunks| && Forwarded(chunks[i]) && chunks[i].value == s
  {
    if chunks != [] {
      var tail := chunks[1..];
      StreamAudioMembers(tail, s);
      if s in StreamAudio(tail) {
        var i :| 0 <= i < |tail| && Forwarded(tail[i]) && tail[i].value == s;
        assert chunks[i + 1] == tail[i];
      }
      if exists i :: 0 <= i < |chunks| && Forwarded(chunks[i]) && chunks[i].value == s {
        var i :| 0 <= i < |chunks| && Forwarded(chunks[i]) && chunks[i].value == s;
        if i > 0 {
          assert tail[i - 1] == chunks[i];
        }
      }
    }
  }

  /** Forwarding distributes over a stream split in two. */
  lemma {:induction false} StreamAudioAppend(a: seq<Option<string>>, b: seq<Option<string>>)
    ensures StreamAudio(a + b) == StreamAudio(a) + StreamAudio(b)
  {
    if a == [] {
      assert a + b == b;
    } else {
      var ab := a + b;
      assert ab[0] == a[0] && ab[1..] == a[1..] + b;
      StreamAudioAppend(a[1..], b);
      var head := if Forwarded(a[0]) then [a[0].value] else [];
      assert StreamAudio(ab) == head + StreamAudio(a[1..] + b);
      assert StreamAudio(a) == head + StreamAudio(a[1..]);
      assert head + (StreamAudio(a[1..]) + StreamAudio(b)) == (head + StreamAudio(a[1..])) + StreamAudio(b);
    }
  }

  /** The error thrown when no API key is configured; `JSON.parse` cannot
      read it. */
  const MissingKeyError: Thrown := Error(MissingKeyMessage, Unparsable)

  /** The fragments forwarded by attempt `a`: none when `createAiInstance`
      throws before the request. */
  function AttemptAudio(apiKeySet: bool, a: Attempt): seq<string>
  {
    if apiKeySet then StreamAudio(a.chunks) else []
  }

  /** The error that ended attempt `a`, if any. */
  function AttemptFailure(apiKeySet: bool, a: Attempt): Option<Thrown>
  {
    if apiKeySet then a.failure else Some(MissingKeyError)
  }

  /** The attempt ended with an error the loop retries. */
  predicate RetryableFailure(apiKeySet: bool, a: Attempt)
  {
    var f := AttemptFailure(apiKeySet, a);
    f.Some? && IsRetryableError(f.value)
  }

  function Pow2(k: nat): (r: nat)
    ensures r >= 1
  {
    if k == 0 then 1 else 2 * Pow2(k - 1)
  }

  /** The notice before retry number k + 1: `INITIAL_DELAY * 2^k` (line 112). */
  function Notice(k: nat): (r: RetryNotice)
    ensures r.attempt == k + 1 && r.maxRetries == MaxRetries
    ensures InitialDelay <= r.delay && (k == 0 ==> r.delay == InitialDelay)
  {
    RetryNotice(k + 1, MaxRetries, InitialDelay * Pow2(k))
  }

  /** Each retry waits twice as long as the one before it. */
  lemma NoticeDoubles(k: nat)
    ensures Notice(k + 1).delay == 2 * Notice(k).delay
    ensures Notice(k + 1).attempt == Notice(k).attempt + 1
  {
  }

  /** The message of the error `generateSpeech` throws when it gives up
      after `error` (line 117). */
  function ThrownMessage(error: Thrown): string
  {
    FailurePrefix + FormatApiError(error)
  }

  /** The thrown message starts with the failure prefix; after it comes the
      generic text for a non-error value, and otherwise the raw message, the
      unavailable text, the generic text or the parsed inner message. */
  lemma ThrownMessageText(error: Thrown)
    ensures |FailurePrefix| <= |ThrownMessage(error)|
    ensures ThrownMessage(error)[..|FailurePrefix|] == FailurePrefix
    ensures var m := ThrownMessage(error)[|FailurePrefix|..];
            && (error.NonError? ==> m == GenericMessage)
            && (error.Error? ==> || m == error.message || m == UnavailableMessage || m == GenericMessage
                                 || (error.parsed.ErrorMember? && error.parsed.message == Some(m)))
  {
    assert ThrownMessage(error)[|FailurePrefix|..] == FormatApiError(error);
  }

  /** The loop of lines 87-120 from attempt `k` on. */
  function Loop(apiKeySet: bool, attempts: nat -> Attempt, k: nat): (r: SpeechRun)
    requires k <= MaxRetries
    ensures k < r.attemptsMade <= MaxRetries + 1
    decreases MaxRetries - k
  {
    var a := attempts(k);
    var audio := AttemptAudio(apiKeySet, a);
    match AttemptFailure(apiKeySet, a)
    case None => SpeechRun(audio, [], k + 1, None)
    case Some(e) =>
      if IsRetryableError(e) && k < MaxRetries then
        var rest := Loop(apiKeySet, attempts, k + 1);
        SpeechRun(audio + rest.forwarded, [Notice(k)] + rest.retries, rest.attemptsMade, rest.error)
      else
        SpeechRun(audio, [], k + 1, Some(ThrownMessage(e)))
  }

  /** `generateSpeech`; attempt j of the request is `attempts(j)`. */
  function GenerateSpeech(apiKeySet: bool, attempts: nat -> Attempt): (r: SpeechRun)
    ensures 1 <= r.attemptsMade <= MaxRetries + 1
  {
    Loop(apiKeySet, attempts, 0)
  }

  /** The fragments of attempts k..n-1, in order. */
  function AudioFrom(apiKeySet: bool, attempts: nat -> Attempt, k: nat, n: nat): seq<string>
    requires k <= n
    decreases n - k
  {
    if k == n then [] else AttemptAudio(apiKeySet, attempts(k)) + AudioFrom(apiKeySet, attempts, k + 1, n)
  }

  /** The loop from attempt `k` stops at the first attempt that does not
      fail with a retryable error, or at the fourth; every attempt before
      that failed retryably. */
  lemma {:induction false} LoopStops(apiKeySet: bool, attempts: nat -> Attempt, k: nat)
    requires k <= MaxRetries
    ensures var r := Loop(apiKeySet, attempts, k);
            && (forall j :: k <= j < r.attemptsMade - 1 ==> RetryableFailure(apiKeySet, attempts(j)))
            && (r.attemptsMade == MaxRetries + 1 || !RetryableFailure(apiKeySet, attempts(r.attemptsMade - 1)))
    decreases MaxRetries - k
  {
    if RetryableFailure(apiKeySet, attempts(k)) && k < MaxRetries {
      LoopStops(apiKeySet, attempts, k + 1);
    }
  }

  /** Each retry from attempt `k` on is announced by its notice, in order. */
  lemma {:induction false} LoopNotices(apiKeySet: bool, attempts: nat -> Attempt, k: nat)
    requires k <= MaxRetries
    ensures var r := Loop(apiKeySet, attempts, k);
            && |r.retries| == r.attemptsMade - 1 - k
            && (forall j :: 0 <= j < |r.retries| ==> r.retries[j] == Notice(k + j))
    decreases MaxRetries - k
  {
    if RetryableFailure(apiKeySet, attempts(k)) && k < MaxRetries {
      LoopNotices(apiKeySet, attempts, k + 1);
      NoticesFrom(Loop(apiKeySet, attempts, k + 1).retries, k);
    }
  }

  /** Notices k+1, k+2, ... preceded by notice k are notices k, k+1, .... */
  lemma NoticesFrom(rest: seq<RetryNotice>, k: nat)
    requires forall j :: 0 <= j < |rest| ==> rest[j] == Notice(k + 1 + j)
    ensures forall j :: 0 <= j < |rest| + 1 ==> ([Notice(k)] + rest)[j] == Notice(k + j)
  {
    forall j | 0 <= j < |rest| + 1 ensures ([Notice(k)] + rest)[j] == Notice(k + j) {
      if j > 0 {
        assert ([Notice(k)] + rest)[j] == rest[j - 1];
      }
    }
  }

  /** The fragments of every attempt made from `k` on are forwarded, in
      order, including those of attempts that failed part-way. */
  lemma {:induction false} LoopForwards(apiKeySet: bool, attempts: nat -> Attempt, k: nat)
    requires k <= MaxRetries
    ensures var r := Loop(apiKeySet, attempts, k);
            r.forwarded == AudioFrom(apiKeySet, attempts, k, r.attemptsMade)
    decreases MaxRetries - k
  {
    var r := Loop(apiKeySet, attempts, k);
    if RetryableFailure(apiKeySet, attempts(k)) && k < MaxRetries {
      LoopForwards(apiKeySet, attempts, k + 1);
    } else {
      assert AudioFrom(apiKeySet, attempts, k + 1, r.attemptsMade) == [];
    }
  }

  /** The loop throws exactly when its last attempt failed, with that
      attempt's formatted error. */
  lemma {:induction false} LoopError(apiKeySet: bool, attempts: nat -> Attempt, k: nat)
    requires k <= MaxRetries
    ensures var r := Loop(apiKeySet, attempts, k);
            r.error == match AttemptFailure(apiKeySet, attempts(r.attemptsMade - 1))
                       case None => None
                       case Some(e) => Some(ThrownMessage(e))
    decreases MaxRetries - k
  {
    if RetryableFailure(apiKeySet, attempts(k)) && k < MaxRetries {
      LoopError(apiKeySet, attempts, k + 1);
    }
  }

  /** `generateSpeech` makes between one and MAX_RETRIES + 1 = 4 attempts and
      gives one notice before each retry: (k, 3, 1000·2^(k-1)) before attempt
      k + 1, so it waits 1000, 2000, then 4000 ms. */
  lemma RetrySchedule(apiKeySet: bool, attempts: nat -> Attempt)
    ensures var r := GenerateSpeech(apiKeySet, attempts);
            && 1 <= r.attemptsMade <= 4
            && |r.retries| == r.attemptsMade - 1
            && r.retries == [RetryNotice(1, 3, 1000), RetryNotice(2, 3, 2000), RetryNotice(3, 3, 4000)][..|r.retries|]
  {
    LoopNotices(apiKeySet, attempts, 0);
    var r := GenerateSpeech(apiKeySet, attempts);
    var schedule := [RetryNotice(1, 3, 1000), RetryNotice(2, 3, 2000), RetryNotice(3, 3, 4000)];
    assert Notice(0) == schedule[0];
    assert Notice(1) == schedule[1] by {
      assert Pow2(1) == 2;
    }
    assert Notice(2) == schedule[2] by {
      assert Pow2(2) == 4 by {
        assert Pow2(1) == 2;
      }
    }
    var p := schedule[..|r.retries|];
    assert |p| == |r.retries|;
    forall j | 0 <= j < |r.retries| ensures r.retries[j] == p[j] {
      assert r.retries[j] == Notice(j);
    }
  }

  /** A first attempt that fails with an error that is not retryable ends the
      call at once: nothing is retried and the formatted error is thrown. */
  lemma NonRetryableThrowsAtOnce(apiKeySet: bool, attempts: nat -> Attempt)
    requires AttemptFailure(apiKeySet, attempts(0)).Some?
    requires !IsRetryableError(AttemptFailure(apiKeySet, attempts(0)).value)
    ensures var r := GenerateSpeech(apiKeySet, attempts);
            && r.attemptsMade == 1 && r.retries == []
            && r.forwarded == AttemptAudio(apiKeySet, attempts(0))
            && r.error == Some(ThrownMessage(AttemptFailure(apiKeySet, attempts(0)).value))
  {
  }

  /** A retryable error on the fourth attempt is not retried again: it is
      thrown, formatted as the unavailable text. */
  lemma FourthRetryableThrows(apiKeySet: bool, attempts: nat -> Attempt)
    requires forall j :: 0 <= j <= MaxRetries ==> RetryableFailure(apiKeySet, attempts(j))
    ensures var r := GenerateSpeech(apiKeySet, attempts);
            && r.attemptsMade == 4 && |r.retries| == 3
            && r.error == Some(FailurePrefix + UnavailableMessage)
  {
    LoopStops(apiKeySet, attempts, 0);
    LoopNotices(apiKeySet, attempts, 0);
    LoopError(apiKeySet, attempts, 0);
    var r := GenerateSpeech(apiKeySet, attempts);
    var f := AttemptFailure(apiKeySet, attempts(r.attemptsMade - 1));
    RetryableIffUnavailableTextHolds(f.value);
  }

  /** A retryable error always formats to the unavailable text. */
  lemma RetryableIffUnavailableTextHolds(error: Thrown)
    requires IsRetryableError(error)
    ensures FormatApiError(error) == UnavailableMessage
  {
  }

  /** A call throws exactly when its last attempt failed; a successful call
      forwards the fragments of every attempt it made, in order, so fragments
      of an attempt that failed part-way are kept and followed by those of
      the retry's fresh stream. */
  lemma SuccessForwardsEverything(apiKeySet: bool, attempts: nat -> Attempt)
    ensures var r := GenerateSpeech(apiKeySet, attempts);
            && (r.error.None? <==> AttemptFailure(apiKeySet, attempts(r.attemptsMade - 1)).None?)
            && r.forwarded == AudioFrom(apiKeySet, attempts, 0, r.attemptsMade)
  {
    LoopError(apiKeySet, attempts, 0);
    LoopForwards(apiKeySet, attempts, 0);
  }

  /** Without an API key the first attempt throws before any request; the
      call throws a message that the friendly-error cascade reports as a
      missing key. */
  lemma MissingKeyReported(attempts: nat -> Attempt)
    ensures var r := GenerateSpeech(false, attempts);
            && r.attemptsMade == 1 && r.forwarded == [] && r.retries == []
            && r.error == Some(FailurePrefix + MissingKeyMessage)
            && FriendlyErrors.GetFriendlyErrorMessage(Error(r.error.value, Unparsable)) == FriendlyErrors.MissingKeyText
  {
    var message := FailurePrefix + MissingKeyMessage;
    var i := |FailurePrefix|;
    MissingKeyPhraseIn(FailurePrefix);
    FriendlyErrors.MissingKeyPhraseMatches(message, i);
    FriendlyErrors.MissingKeyMessage(message, Unparsable, i);
  }

  /** The thrown message holds the phrase the cascade looks for, whatever precedes it. */
  lemma MissingKeyPhraseIn(prefix: string)
    ensures Strings.OccursAt(prefix + MissingKeyMessage, FriendlyErrors.MissingKeyPhrase, |prefix|)
  {
    var phrase := FriendlyErrors.MissingKeyPhrase;
    assert MissingKeyMessage == phrase + ".";
    assert (prefix + (phrase + "."))[|prefix|..|prefix| + |phrase|] == phrase;
  }
}
