/** `getFriendlyErrorMessage` of utils/errorUtils.ts: a priority-ordered
    cascade of substring tests on the lower-cased message of an `Error`. The
    cascade is written out as the source writes it, and proved equal to a
    first-match search over a rule table, the reference definition from
    which the priority, case and fallback properties follow. */
module FriendlyErrors {
  import opened Common
  import opened Strings

  const MissingKeyText: string :=
    "The API key is missing. Please ensure it is configured correctly before using the application."
  const InvalidKeyText: string :=
    "Invalid API Key. Please ensure your API key is correct and has the necessary permissions."
  const QuotaText: string :=
    "API quota exceeded. Please check your usage limits in your Google AI Studio dashboard."
  const BillingText: string :=
    "There might be an issue with your billing account. Please ensure it is active and properly configured."
  const UnavailableText: string :=
    "The AI service is temporarily unavailable. Please try again later."
  const ModelText: string :=
    "The selected voice model is currently unavailable or not supported. Please try another voice."
  const NetworkText: string :=
    "A network error occurred. Please check your internet connection."
  const UnexpectedText: string :=
    "An unexpected error occurred. Please check the console for details."

  /** The missing-key phrase, as thrown by the service and as matched here. */
  const MissingKeyPhrase: string := "API_KEY" + KeyPhraseTail
  const MissingKeyNeedle: string := "api_key" + KeyPhraseTail
  const KeyPhraseTail: string := " environment variable is not set"

  /** One step of the cascade: any needle in the lower-cased message selects the text. */
  datatype Rule = Rule(needles: seq<string>, text: string)

  /** The cascade of lines 10-42, in order. */
  const Rules: seq<Rule> := [
    Rule([MissingKeyNeedle], MissingKeyText),
    Rule(["api key not valid", "permission denied"], InvalidKeyText),
    Rule(["quota", "rate limit"], QuotaText),
    Rule(["billing"], BillingText),
    Rule(["server error", "500", "503"], UnavailableText),
    Rule(["model is not supported", "not found"], ModelText),
    Rule(["failed to fetch", "network"], NetworkText)
  ]

  predicate Matches(rule: Rule, lowered: string)
  {
    exists k :: 0 <= k < |rule.needles| && Contains(lowered, rule.needles[k])
  }

  /** The text of the first rule that matches, if any. */
  function FirstMatch(rules: seq<Rule>, lowered: string): (r: Option<string>)
    ensures r.None? <==> forall k :: 0 <= k < |rules| ==> !Matches(rules[k], lowered)
    ensures r.Some? ==> exists k :: && 0 <= k < |rules| && Matches(rules[k], lowered)
                                    && r.value == rules[k].text
                                    && forall j :: 0 <= j < k ==> !Matches(rules[j], lowered)
  {
    if rules == [] then None
    else if Matches(rules[0], lowered) then Some(rules[0].text)
    else
      var r := FirstMatch(rules[1..], lowered);
      assert forall k :: 1 <= k < |rules| ==> rules[k] == rules[1..][k - 1];
      if r.Some? then
        var k :| && 0 <= k < |rules[1..]| && Matches(rules[1..][k], lowered)
                 && r.value == rules[1..][k].text
                 && forall j :: 0 <= j < k ==> !Matches(rules[1..][j], lowered);
        assert forall j :: 0 <= j < k + 1 ==> !Matches(rules[j], lowered) by {
          forall j | 0 <= j < k + 1 ensures !Matches(rules[j], lowered) {
            if j > 0 {
              assert rules[j] == rules[1..][j - 1];
            }
          }
        }
        assert Matches(rules[k + 1], lowered) && r.value == rules[k + 1].text;
        r
      else
        r
  }

  /** `getFriendlyErrorMessage`, as the cascade of lines 7-49. */
  function GetFriendlyErrorMessage(error: Thrown): (r: string)
    ensures error.NonError? ==> r == UnexpectedText
  {
    match error
    case NonError => UnexpectedText
    case Error(message, _) =>
      var m := ToLower(message);
      if Contains(m, MissingKeyNeedle) then MissingKeyText
      else if Contains(m, "api key not valid") || Contains(m, "permission denied") then InvalidKeyText
      else if Contains(m, "quota") || Contains(m, "rate limit") then QuotaText
      else if Contains(m, "billing") then BillingText
      else if Contains(m, "server error") || Contains(m, "500") || Contains(m, "503") then UnavailableText
      else if Contains(m, "model is not supported") || Contains(m, "not found") then ModelText
      else if Contains(m, "failed to fetch") || Contains(m, "network") then NetworkText
      else message
  }

  /** The cascade is the first-match search over the rule table, falling back
      to the original message. */
  lemma CascadeIsFirstMatch(message: string, parsed: ParsedMessage)
    ensures GetFriendlyErrorMessage(Error(message, parsed))
         == match FirstMatch(Rules, ToLower(message)) case Some(t) => t case None => message
  {
    var m := ToLower(message);
    MatchesNeedles(Rules[0], m);
    MatchesNeedles(Rules[1], m);
    MatchesNeedles(Rules[2], m);
    MatchesNeedles(Rules[3], m);
    MatchesNeedles(Rules[4], m);
    MatchesNeedles(Rules[5], m);
    MatchesNeedles(Rules[6], m);
    FirstMatchUnfold(Rules, m);
  }

  /** A rule of one to three needles matches when one of them occurs. */
  lemma MatchesNeedles(rule: Rule, m: string)
    requires 1 <= |rule.needles| <= 3
    ensures |rule.needles| == 1 ==> (Matches(rule, m) <==> Contains(m, rule.needles[0]))
    ensures |rule.needles| == 2 ==> (Matches(rule, m) <==> Contains(m, rule.needles[0]) || Contains(m, rule.needles[1]))
    ensures |rule.needles| == 3 ==> (Matches(rule, m) <==> Contains(m, rule.needles[0]) || Contains(m, rule.needles[1])
                                                           || Contains(m, rule.needles[2]))
  {
    if Contains(m, rule.needles[0]) {
      assert Matches(rule, m);
    }
    if |rule.needles| >= 2 && Contains(m, rule.needles[1]) {
      assert Matches(rule, m);
    }
    if |rule.needles| == 3 && Contains(m, rule.needles[2]) {
      assert Matches(rule, m);
    }
  }

  /** One step of the search, for each of the seven rules. */
  lemma FirstMatchUnfold(rules: seq<Rule>, m: string)
    requires |rules| == 7
    ensures FirstMatch(rules, m) ==
      if Matches(rules[0], m) then Some(rules[0].text)
      else if Matches(rules[1], m) then Some(rules[1].text)
      else if Matches(rules[2], m) then Some(rules[2].text)
      else if Matches(rules[3], m) then Some(rules[3].text)
      else if Matches(rules[4], m) then Some(rules[4].text)
      else if Matches(rules[5], m) then Some(rules[5].text)
      else if Matches(rules[6], m) then Some(rules[6].text)
      else None
  {
    var r1 := rules[1..];
    var r2 := r1[1..];
    var r3 := r2[1..];
    var r4 := r3[1..];
    var r5 := r4[1..];
    var r6 := r5[1..];
    var r7 := r6[1..];
    assert r7 == [];
    assert r1[0] == rules[1] && r2[0] == rules[2] && r3[0] == rules[3];
    assert r4[0] == rules[4] && r5[0] == rules[5] && r6[0] == rules[6];
  }

  /** The first rule whose needle occurs in the lower-cased message decides
      the text: an earlier rule always wins over a later one. */
  lemma FirstRuleWins(message: string, parsed: ParsedMessage, k: nat)
    requires k < |Rules| && Matches(Rules[k], ToLower(message))
    requires forall j :: 0 <= j < k ==> !Matches(Rules[j], ToLower(message))
    ensures GetFriendlyErrorMessage(Error(message, parsed)) == Rules[k].text
  {
    CascadeIsFirstMatch(message, parsed);
    var m := ToLower(message);
    var r := FirstMatch(Rules, m);
    var k' :| && 0 <= k' < |Rules| && Matches(Rules[k'], m) && r.value == Rules[k'].text
              && forall j :: 0 <= j < k' ==> !Matches(Rules[j], m);
    assert k' == k;
  }

  /** Without any needle in the lower-cased message, the original message is
      returned unchanged, in its original case. */
  lemma NoRuleKeepsMessage(message: string, parsed: ParsedMessage)
    requires forall j :: 0 <= j < |Rules| ==> !Matches(Rules[j], ToLower(message))
    ensures GetFriendlyErrorMessage(Error(message, parsed)) == message
  {
    CascadeIsFirstMatch(message, parsed);
  }

  /** The result is one of the seven rule texts or the original message of an
      `Error`, and the generic text for anything else. */
  lemma ResultIsKnown(error: Thrown)
    ensures var r := GetFriendlyErrorMessage(error);
            if error.Error? then r == error.message || exists k :: 0 <= k < |Rules| && r == Rules[k].text
            else r == UnexpectedText
  {
    if error.Error? {
      CascadeIsFirstMatch(error.message, error.parsed);
    }
  }

  /** Matching ignores case: two messages equal up to case get the same text,
      unless both fall back to their own wording. */
  lemma CaseInsensitive(m1: string, m2: string, p1: ParsedMessage, p2: ParsedMessage)
    requires ToLower(m1) == ToLower(m2)
    ensures var r1, r2 := GetFriendlyErrorMessage(Error(m1, p1)), GetFriendlyErrorMessage(Error(m2, p2));
            r1 == r2 || (r1 == m1 && r2 == m2)
  {
    CascadeIsFirstMatch(m1, p1);
    CascadeIsFirstMatch(m2, p2);
  }

  /** A quota message wins over a server-error code in the same message,
      unless a key problem is reported first. */
  lemma QuotaBeatsServerError(message: string, parsed: ParsedMessage)
    requires Contains(ToLower(message), "quota") && Contains(ToLower(message), "503")
    requires !Matches(Rules[0], ToLower(message)) && !Matches(Rules[1], ToLower(message))
    ensures GetFriendlyErrorMessage(Error(message, parsed)) == QuotaText
  {
    assert Rules[2].needles[0] == "quota";
    FirstRuleWins(message, parsed, 2);
  }

  /** "500" or "503" anywhere in the message, even inside a longer number
      such as "5000", reports the service as unavailable once no earlier rule
      matches. */
  lemma ServerCodeAnywhere(message: string, parsed: ParsedMessage, i: nat, code: string)
    requires code == "500" || code == "503"
    requires OccursAt(ToLower(message), code, i)
    requires forall j :: 0 <= j < 4 ==> !Matches(Rules[j], ToLower(message))
    ensures GetFriendlyErrorMessage(Error(message, parsed)) == UnavailableText
  {
    ContainsAt(ToLower(message), code, i);
    assert Rules[4].needles[1] == "500" && Rules[4].needles[2] == "503";
    FirstRuleWins(message, parsed, 4);
  }

  /** Lower-casing commutes with taking a slice. */
  lemma ToLowerSlice(s: string, i: nat, j: nat)
    requires i <= j <= |s|
    ensures ToLower(s)[i..j] == ToLower(s[i..j])
  {
  }

  /** A message holding the phrase the service throws when no API key is
      configured, in any case, gets the missing-key text. */
  lemma MissingKeyMessage(message: string, parsed: ParsedMessage, i: nat)
    requires OccursAt(ToLower(message), MissingKeyNeedle, i)
    ensures GetFriendlyErrorMessage(Error(message, parsed)) == MissingKeyText
  {
    ContainsAt(ToLower(message), MissingKeyNeedle, i);
  }

  /** The phrase as the service writes it lower-cases to the needle. */
  lemma MissingKeyPhraseMatches(message: string, i: nat)
    requires OccursAt(message, MissingKeyPhrase, i)
    ensures OccursAt(ToLower(message), MissingKeyNeedle, i)
  {
    ToLowerSlice(message, i, i + |MissingKeyPhrase|);
    PhraseLowers();
  }

  /** Only the `API_KEY` part of the phrase has capitals. */
  lemma PhraseLowers()
    ensures ToLower(MissingKeyPhrase) == MissingKeyNeedle
  {
    ToLowerAppend("API_KEY", KeyPhraseTail);
    assert ToLower("API_KEY") == "api_key";
    assert ToLower(KeyPhraseTail) == KeyPhraseTail;
  }

  /** Lower-casing works piecewise. */
  lemma ToLowerAppend(a: string, b: string)
    ensures ToLower(a + b) == ToLower(a) + ToLower(b)
  {
  }
}
