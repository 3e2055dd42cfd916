/** Worked inputs for `clean_response`, each run through the model. The
    inputs are parameters fixed by the precondition. Each example is the
    instance of a general lemma about `CleanResponse`; the facts about the
    literal strings are kept in lemmas of their own. */
module SanitizerExamples {
  import opened PyStr
  import opened Sanitizer

  /** Text whose last character is terminal punctuation matches `[.!?;]\s*$`. */
  lemma EndsInTerminalAtEnd(s: string)
    requires s != [] && IsTerminal(s[|s| - 1])
    ensures EndsInTerminal(s)
  {
    assert AllSpace(s[|s| - 1 + 1..]);
  }

  /** One whitespace character before text with no whitespace at either end
      is removed by `strip()`. */
  lemma StripSpaceThen(c: char, s: string)
    requires IsSpace(c) && s != [] && !IsSpace(s[0]) && !IsSpace(s[|s| - 1])
    ensures Strip([c] + s) == s
  {
    var t := [c] + s;
    assert t[|t| - 1] == s[|s| - 1];
    assert RStrip(t) == t;
    assert t[1..] == s;
    assert LStrip(t) == LStrip(s);
    StripTrimmed(s);
  }

  /** A response that does not start with the prompt differs from it in the
      first character. */
  lemma NotPrefixByFirstChar(prompt: string, response: string)
    requires prompt != [] && response != [] && prompt[0] != response[0]
    ensures !(prompt <= response)
  {
  }

  /** A finished sentence is all that is left of the prompt, one whitespace
      character and that sentence. */
  lemma CleanResponseOfEchoedAnswer(prompt: string, c: char, answer: string)
    requires IsSpace(c) && answer != [] && '\n' !in answer
    requires !IsSpace(answer[0]) && IsTerminal(answer[|answer| - 1])
    ensures CleanResponse(prompt + [c] + answer, prompt) == answer
  {
    assert StripEcho(prompt + [c] + answer, prompt) == answer by {
      StripEchoOfSpacedAnswer(prompt, c, answer);
    }
    NewlineFreeIsUncut(answer);
    assert CompleteSentence(answer) == answer by {
      EndsInTerminalAtEnd(answer);
    }
  }

  lemma StripEchoOfSpacedAnswer(prompt: string, c: char, answer: string)
    requires IsSpace(c) && answer != [] && !IsSpace(answer[0]) && !IsSpace(answer[|answer| - 1])
    ensures StripEcho(prompt + [c] + answer, prompt) == answer
  {
    assert prompt + [c] + answer == prompt + ([c] + answer);
    StripEchoOfEchoed(prompt, [c] + answer);
    StripSpaceThen(c, answer);
  }

  /** Text without a newline passes the marker loop unchanged. */
  lemma NewlineFreeIsUncut(s: string)
    requires '\n' !in s
    ensures CutMarkers(s, MARKERS) == s
  {
    NoNewlineNoMarker(s);
  }

  lemma AnswerShape(answer: string)
    requires answer == "Paris is the capital of France."
    ensures answer != [] && '\n' !in answer
    ensures !IsSpace(answer[0]) && IsTerminal(answer[|answer| - 1])
  {
  }

  /** The echoed question is removed and the answer kept. */
  lemma EchoedPromptIsRemoved(response: string, prompt: string, answer: string)
    requires prompt == "What is the capital of France?"
    requires answer == "Paris is the capital of France."
    requires response == prompt + " " + answer
    ensures CleanResponse(response, prompt) == answer
  {
    AnswerShape(answer);
    CleanResponseOfEchoedAnswer(prompt, ' ', answer);
  }

  /** When the first marker, "\nQ:", cuts the response down to text without a
      newline, the other markers find nothing and only sentence completion
      remains. */
  lemma CleanResponseAfterQuestionCut(response: string, prompt: string, head: string)
    requires !(prompt <= response) && CutAt(response, MARKERS[0]) == head && '\n' !in head
    ensures CleanResponse(response, prompt) == CompleteSentence(head)
  {
    MarkersShape();
    NoNewlineNoMarker(head);
    assert forall k :: 0 <= k < |MARKERS[1..]| ==> MARKERS[1..][k] == MARKERS[k + 1];
  }

  lemma DialogueShape(response: string, prompt: string, head: string, tail: string)
    requires prompt == "placeholder"
    requires head == "Yes." && tail == "\nQ: What about Spain?\nA: Madrid."
    requires response == head + tail
    ensures prompt[0] != response[0]
    ensures '\n' !in head && IsTerminal(head[|head| - 1])
  {
  }

  /** A hallucinated follow-up question and answer are cut off. */
  lemma DialogueIsCut(response: string, prompt: string, head: string, tail: string)
    requires prompt == "placeholder"
    requires head == "Yes." && tail == "\nQ: What about Spain?\nA: Madrid."
    requires response == head + tail
    ensures CleanResponse(response, prompt) == head
  {
    DialogueShape(response, prompt, head, tail);
    NotPrefixByFirstChar(prompt, response);
    DialogueCutAtQuestion(response, head, tail);
    CleanResponseAfterQuestionCut(response, prompt, head);
    EndsInTerminalAtEnd(head);
  }

  /** The first marker, "\nQ:", starts right after "Yes.", and cutting there
      leaves "Yes.". */
  lemma DialogueCutAtQuestion(response: string, head: string, tail: string)
    requires head == "Yes." && tail == "\nQ: What about Spain?\nA: Madrid."
    requires response == head + tail
    ensures CutAt(response, MARKERS[0]) == head
  {
    MarkersShape();
    assert response[..4] == head && '\n' !in head;
    assert OccursAt(response, MARKERS[0], 4) by {
      assert response[4..7] == tail[..3];
      assert tail[..3] == MARKERS[0];
    }
    FoundAfterNewlineFreeText(response, MARKERS[0], 4);
    StripTrimmed(head);
  }

  /** A pattern that starts with a newline, found at `i` in text whose first
      `i` characters hold no newline, is first found at `i`. */
  lemma FoundAfterNewlineFreeText(s: string, pat: string, i: nat)
    requires pat != [] && pat[0] == '\n' && i <= |s| && '\n' !in s[..i]
    requires OccursAt(s, pat, i)
    ensures Find(s, pat) == i
  {
    forall j | 0 <= j < i ensures !OccursAt(s, pat, j) {
      assert s[..i][j] == s[j];
      assert j + |pat| <= |s| ==> s[j..j + |pat|][0] == s[j];
    }
  }

  /** Plain text (no echo, no newline) that ends in neither whitespace nor
      terminal punctuation, with its last terminal character at `i`. */
  lemma CleanPlainUnfinished(response: string, prompt: string, i: int)
    requires !(prompt <= response) && '\n' !in response
    requires response != [] && !IsSpace(response[|response| - 1]) && !IsTerminal(response[|response| - 1])
    requires -1 <= i < |response| && (i != -1 ==> IsTerminal(response[i])) && NoTerminal(response[i + 1..])
    ensures CleanResponse(response, prompt) == if i > 0 then response[..i + 1] else response + "."
  {
    CompleteUnfinished(response, i);
    CleanResponseOfPlainText(response, prompt);
  }

  lemma DanglingShape(response: string, prompt: string, kept: string, tail: string)
    requires prompt == "placeholder"
    requires kept == "Hello! How are you?" && tail == " I am fine"
    requires response == kept + tail
    ensures prompt[0] != response[0] && '\n' !in response
    ensures !IsSpace(response[|response| - 1]) && !IsTerminal(response[|response| - 1])
    ensures IsTerminal(response[18]) && NoTerminal(response[19..])
    ensures response[..19] == kept
  {
    assert response[19..] == tail;
  }

  /** A dangling clause after the last sentence is dropped. */
  lemma DanglingClauseIsDropped(response: string, prompt: string, kept: string, tail: string)
    requires prompt == "placeholder"
    requires kept == "Hello! How are you?" && tail == " I am fine"
    requires response == kept + tail
    ensures CleanResponse(response, prompt) == kept
  {
    DanglingShape(response, prompt, kept, tail);
    NotPrefixByFirstChar(prompt, response);
    CleanPlainUnfinished(response, prompt, 18);
  }

  lemma SkyShape(response: string, prompt: string)
    requires prompt == "placeholder" && response == "The sky is blue"
    ensures prompt[0] != response[0] && '\n' !in response
    ensures !IsSpace(response[|response| - 1]) && !IsTerminal(response[|response| - 1])
    ensures NoTerminal(response[-1 + 1..])
  {
    assert response[0..] == response;
  }

  lemma SkyWithPeriod(response: string)
    requires response == "The sky is blue"
    ensures response + "." == "The sky is blue."
  {
  }

  /** Text without any terminal punctuation gets a period. */
  lemma PeriodIsAppended(response: string, prompt: string)
    requires prompt == "placeholder" && response == "The sky is blue"
    ensures CleanResponse(response, prompt) == "The sky is blue."
  {
    SkyShape(response, prompt);
    SkyWithPeriod(response);
    NotPrefixByFirstChar(prompt, response);
    CleanPlainUnfinished(response, prompt, -1);
  }

  /** The empty response with the empty prompt becomes ".". */
  lemma EmptyBecomesPeriod(response: string, prompt: string)
    requires response == "" && prompt == ""
    ensures CleanResponse(response, prompt) == "."
  {
    EmptyPromptStrips(response);
    NoNewlineNoMarker(response);
    MarkersShape();
    assert !EndsInTerminal(response);
  }

  lemma LeadingShape(response: string, prompt: string)
    requires prompt == "x" && response == ".abc"
    ensures prompt[0] != response[0] && '\n' !in response
    ensures !IsSpace(response[|response| - 1]) && !IsTerminal(response[|response| - 1])
    ensures IsTerminal(response[0]) && NoTerminal(response[0 + 1..])
    ensures response + "." == ".abc."
  {
    assert response[1..] == "abc";
  }

  /** Punctuation at index 0 alone does not count: the test is `> 0`. */
  lemma LeadingPunctuationIsIgnored(response: string, prompt: string)
    requires prompt == "x" && response == ".abc"
    ensures CleanResponse(response, prompt) == ".abc."
  {
    LeadingShape(response, prompt);
    NotPrefixByFirstChar(prompt, response);
    CleanPlainUnfinished(response, prompt, 0);
  }

  lemma MarkerOrderShape(response: string, prompt: string, head: string, tail: string, body: string)
    requires prompt == "x" && head == "\nA: foo" && tail == "\nQ: bar" && body == "A: foo"
    requires response == head + tail
    ensures prompt[0] != response[0] && '\n' !in body
    ensures OccursAt(response, MARKERS[1], 0)
  {
    assert response[0..3] == MARKERS[1];
  }

  /** The markers are visited in list order and each cut is stripped, so a
      later cut can expose text that began with an earlier marker: here the
      text before the earliest marker is empty, yet "A: foo." comes back. */
  lemma MarkerOrderMatters(response: string, prompt: string, head: string, tail: string)
    requires prompt == "x" && head == "\nA: foo" && tail == "\nQ: bar"
    requires response == head + tail
    ensures Find(response, MARKERS[1]) == 0
    ensures CleanResponse(response, prompt) == "A: foo."
  {
    var body := "A: foo";
    MarkerOrderShape(response, prompt, head, tail, body);
    NotPrefixByFirstChar(prompt, response);
    FirstCutExposesBody(response, head, tail, body);
    CleanResponseAfterQuestionCut(response, prompt, body);
    BodyIsCompleted(body);
  }

  lemma BodyIsCompleted(body: string)
    requires body == "A: foo"
    ensures CompleteSentence(body) == "A: foo."
  {
    assert body[0..] == body && NoTerminal(body) && body[|body| - 1] == 'o';
    CompleteUnfinished(body, -1);
  }

  lemma AnswerLineShape(response: string, head: string, tail: string, body: string)
    requires head == "\nA: foo" && tail == "\nQ: bar" && body == "A: foo"
    requires response == head + tail
    ensures response[..7] == ['\n'] + body
    ensures !IsSpace(body[0]) && !IsSpace(body[|body| - 1])
  {
  }

  /** The first marker visited, "\nQ:", is found after the "\nA:" line,
      and stripping the text before it removes the newline of "\nA:". */
  lemma FirstCutExposesBody(response: string, head: string, tail: string, body: string)
    requires head == "\nA: foo" && tail == "\nQ: bar" && body == "A: foo"
    requires response == head + tail
    ensures CutAt(response, MARKERS[0]) == body
  {
    QuestionFoundAfterAnswerLine(response, head, tail);
    AnswerLineShape(response, head, tail, body);
    StripSpaceThen('\n', body);
  }

  /** In "\nA: foo\nQ: bar", "\nQ:" is first found at index 7: the only
      earlier newline is followed by "A". */
  lemma QuestionFoundAfterAnswerLine(response: string, head: string, tail: string)
    requires head == "\nA: foo" && tail == "\nQ: bar"
    requires response == head + tail
    ensures Find(response, MARKERS[0]) == 7
  {
    var q := MARKERS[0];
    assert q == "\nQ:";
    assert response[7..10] == tail[..3] == q;
    assert OccursAt(response, q, 7);
    forall j | 0 <= j < 7 ensures !OccursAt(response, q, j) {
      if j == 0 {
        assert response[j..j + 3][1] == 'A';
      } else {
        assert response[j] == head[j] != '\n';
      }
    }
  }
}
