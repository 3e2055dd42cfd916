/** `get_tone_description(tone)`: the phrase that tells the model what a tone
    means. Ten tones have a fixed description, looked up case-insensitively;
    any other tone is described by its own name. */
module ToneStyle {
  import opened PyStr

  /** The `predefined` dictionary. */
  const PREDEFINED: map<string, string> := map[
    "playful" := "fun and lighthearted",
    "serious" := "formal and grave",
    "formal" := "professional and proper",
    "casual" := "relaxed and informal",
    "professional" := "business-appropriate",
    "friendly" := "warm and approachable",
    "enthusiastic" := "energetic and excited",
    "sarcastic" := "humorous with irony",
    "poetic" := "descriptive and metaphorical",
    "technical" := "precise and accurate"
  ]

  const DEFAULT_SUFFIX: string := " emotional style"

  /** `predefined.get(tone.lower(), f"{tone} emotional style")`. */
  function ToneDescription(tone: string): (r: string)
    ensures r != []
    ensures Lower(tone) in PREDEFINED ==> r == PREDEFINED[Lower(tone)]
    ensures Lower(tone) !in PREDEFINED ==>
              |r| == |tone| + |DEFAULT_SUFFIX| && r[..|tone|] == tone && r[|tone|..] == DEFAULT_SUFFIX
  {
    var key := Lower(tone);
    if key in PREDEFINED then
      PredefinedValuesNonEmpty(key);
      PREDEFINED[key]
    else
      var r := tone + DEFAULT_SUFFIX;
      assert r[..|tone|] == tone && r[|tone|..] == DEFAULT_SUFFIX;
      r
  }

  lemma PredefinedValuesNonEmpty(key: string)
    requires key in PREDEFINED
    ensures PREDEFINED[key] != []
  {
  }

  /** Any capitalisation of a predefined tone gets its fixed description. */
  lemma KnownToneAnyCase(key: string, tone: string)
    requires key in PREDEFINED && Lower(tone) == key
    ensures ToneDescription(tone) == PREDEFINED[key]
  {
  }

  /** Two spellings of a tone that lower-case alike get the same description
      when that tone is predefined. */
  lemma CaseInsensitive(a: string, b: string)
    requires Lower(a) == Lower(b) && Lower(a) in PREDEFINED
    ensures ToneDescription(a) == ToneDescription(b)
  {
  }

  /** No fixed description ends like a default one, so a description comes
      from the dictionary exactly when the tone is predefined. */
  lemma DescriptionIsFixedIffPredefined(tone: string)
    ensures ToneDescription(tone) in PREDEFINED.Values <==> Lower(tone) in PREDEFINED
  {
    var r := ToneDescription(tone);
    if Lower(tone) !in PREDEFINED && r in PREDEFINED.Values {
      var key :| key in PREDEFINED && PREDEFINED[key] == r;
      NoValueEndsInSuffix(key);
    }
  }

  /** No fixed description ends in the default suffix: the third character
      from the end of each one differs from the suffix's `y`. */
  lemma NoValueEndsInSuffix(key: string)
    requires key in PREDEFINED
    ensures var v := PREDEFINED[key];
      |v| < |DEFAULT_SUFFIX| || v[|v| - |DEFAULT_SUFFIX|..] != DEFAULT_SUFFIX
  {
    var v := PREDEFINED[key];
    assert |v| >= 3 && v[|v| - 3] != 'y';
    if |v| >= |DEFAULT_SUFFIX| {
      assert v[|v| - |DEFAULT_SUFFIX|..][|DEFAULT_SUFFIX| - 3] == v[|v| - 3];
    }
  }

  /** "PlayFul" is a capitalisation of "playful". */
  lemma MixedCaseExample()
    ensures ToneDescription("PlayFul") == "fun and lighthearted"
  {
    LowerPlayFul("PlayFul");
    KnownToneAnyCase("playful", "PlayFul");
  }

  lemma LowerPlayFul(tone: string)
    requires tone == "PlayFul"
    ensures Lower(tone) == "playful"
  {
    var r := Lower(tone);
    assert forall i :: 0 <= i < 7 ==> r[i] == "playful"[i];
  }

  /** An unknown tone keeps its own capitalisation in the default phrase. */
  lemma UnknownToneExample()
    ensures ToneDescription("Happy") == "Happy emotional style"
  {
    LowerHappy("Happy");
    HappyIsNotPredefined("happy");
    HappyWithSuffix("Happy");
    var r := ToneDescription("Happy");
    assert r == r[..5] + r[5..];
  }

  lemma LowerHappy(tone: string)
    requires tone == "Happy"
    ensures Lower(tone) == "happy"
  {
    var r := Lower(tone);
    assert forall i :: 0 <= i < 5 ==> r[i] == "happy"[i];
  }

  lemma HappyIsNotPredefined(key: string)
    requires key == "happy"
    ensures key !in PREDEFINED
  {
  }

  lemma HappyWithSuffix(tone: string)
    requires tone == "Happy"
    ensures tone + DEFAULT_SUFFIX == "Happy emotional style"
  {
  }
}
