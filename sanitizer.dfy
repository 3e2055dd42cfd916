/** `clean_response(response, prompt)`: the post-processing both chatbots apply
    to the model's raw text. Three steps run in sequence: the echoed prompt is
    stripped, the text is cut at hallucinated dialogue markers, and the text
    is made to end on a sentence boundary. */
module Sanitizer {
  import opened PyStr

  /** The dialogue markers, in the order the loop visits them. */
  const MARKERS: seq<string> := ["\nQ:", "\nA:", "\nHuman:", "\nAssistant:"]

  predicate IsTerminal(c: char) {
    c == '.' || c == '!' || c == '?' || c == ';'
  }

  /** `re.search(r'[.!?;]\s*$', s)`: a terminal punctuation character followed
      only by whitespace. (`$` may also match just before a final newline; as
      a newline is whitespace, `\s*` already covers that case.) */
  predicate EndsInTerminal(s: string) {
    exists i {:trigger IsTerminal(s[i])} :: 0 <= i < |s| && IsTerminal(s[i]) && AllSpace(s[i + 1..])
  }

  /** The regular expression matches exactly when the text, with its trailing
      whitespace removed, ends in terminal punctuation. */
  lemma EndsInTerminalIffRStrip(s: string)
    ensures EndsInTerminal(s) <==> (RStrip(s) != [] && IsTerminal(RStrip(s)[|RStrip(s)| - 1]))
  {
    var t := RStrip(s);
    if EndsInTerminal(s) {
      var i :| 0 <= i < |s| && IsTerminal(s[i]) && AllSpace(s[i + 1..]);
      forall j | i < j < |s| ensures IsSpace(s[j]) {
        assert s[j] == s[i + 1..][j - i - 1];
      }
      assert !IsSpace(s[i]) && i < |t|;
      assert s[|t| - 1] == t[|t| - 1];
    }
    if t != [] && IsTerminal(t[|t| - 1]) {
      assert s[|t| - 1] == t[|t| - 1];
      assert s[|t| - 1 + 1..] == s[|t|..];
    }
  }

  /** Step 1, echo stripping: `if response.startswith(prompt):
      response = response[len(prompt):].strip()`. */
  function StripEcho(response: string, prompt: string): (r: string)
    ensures !(prompt <= response) ==> r == response
    ensures prompt <= response ==> IsTrimOf(r, response[|prompt|..])
    ensures prompt <= response && r != [] ==> !IsSpace(r[0]) && !IsSpace(r[|r| - 1])
  {
    if prompt <= response then Strip(response[|prompt|..]) else response
  }

  /** A response made of the prompt followed by `rest` becomes `rest`, stripped. */
  lemma StripEchoOfEchoed(prompt: string, rest: string)
    ensures StripEcho(prompt + rest, prompt) == Strip(rest)
  {
    assert prompt <= prompt + rest;
    assert (prompt + rest)[|prompt|..] == rest;
  }

  /** For a response that neither starts with the prompt nor holds a newline,
      only sentence completion has any effect. */
  lemma CleanResponseOfPlainText(response: string, prompt: string)
    requires !(prompt <= response) && '\n' !in response
    ensures CleanResponse(response, prompt) == CompleteSentence(response)
  {
    NoNewlineNoMarker(response);
    MarkersShape();
  }

  /** The empty prompt is a prefix of every response, so it always strips. */
  lemma EmptyPromptStrips(response: string)
    ensures StripEcho(response, "") == Strip(response)
  {
    StripEchoOfEchoed("", response);
    assert "" + response == response;
  }

  /** One turn of the marker loop: `if marker in response:
      response = response.split(marker, 1)[0].strip()`. */
  function CutAt(s: string, marker: string): (r: string)
    requires marker != []
    ensures !Contains(r, marker)
    ensures forall p :: !Contains(s, p) ==> !Contains(r, p)
    ensures !Contains(s, marker) ==> r == s
    ensures Contains(s, marker) ==> r == Strip(s[..Find(s, marker)])
  {
    var i := Find(s, marker);
    if i >= 0 then
      var head := s[..i];
      NoOccurrenceBeforeFirst(s, marker, i);
      NoOccurrenceStrip(head, marker);
      forall p | !Contains(s, p) ensures !Contains(Strip(head), p) {
        NoOccurrenceInSlice(s, p, 0, i);
        NoOccurrenceStrip(head, p);
      }
      Strip(head)
    else
      s
  }

  /** Step 2, the marker loop, as a fold over the markers in list order. */
  function CutMarkers(s: string, markers: seq<string>): (r: string)
    requires forall k :: 0 <= k < |markers| ==> markers[k] != []
    ensures forall k :: 0 <= k < |markers| ==> !Contains(r, markers[k])
    ensures forall p :: !Contains(s, p) ==> !Contains(r, p)
    ensures (forall k :: 0 <= k < |markers| ==> !Contains(s, markers[k])) ==> r == s
    decreases |markers|
  {
    if markers == [] then s
    else
      var head := CutAt(s, markers[0]);
      var r := CutMarkers(head, markers[1..]);
      CutMarkersStep(s, markers, head, r);
      r
  }

  /** The marker loop's step: what the first cut and the remaining turns
      guarantee, put together for the whole marker list. */
  lemma CutMarkersStep(s: string, markers: seq<string>, head: string, r: string)
    requires markers != []
    requires !Contains(head, markers[0])
    requires forall p :: !Contains(s, p) ==> !Contains(head, p)
    requires !Contains(s, markers[0]) ==> head == s
    requires forall k :: 0 <= k < |markers[1..]| ==> !Contains(r, markers[1..][k])
    requires forall p :: !Contains(head, p) ==> !Contains(r, p)
    requires (forall k :: 0 <= k < |markers[1..]| ==> !Contains(head, markers[1..][k])) ==> r == head
    ensures forall k :: 0 <= k < |markers| ==> !Contains(r, markers[k])
    ensures forall p :: !Contains(s, p) ==> !Contains(r, p)
    ensures (forall k :: 0 <= k < |markers| ==> !Contains(s, markers[k])) ==> r == s
  {
    assert forall k :: 1 <= k < |markers| ==> markers[k] == markers[1..][k - 1];
  }

  /** The last index of any terminal punctuation character, or -1. */
  function LastTerminalIndex(s: string): (r: int)
    ensures -1 <= r < |s|
    ensures r != -1 ==> IsTerminal(s[r])
    ensures forall j :: r < j < |s| ==> !IsTerminal(s[j])
  {
    if s == [] then -1
    else if IsTerminal(s[|s| - 1]) then |s| - 1
    else LastTerminalIndex(s[..|s| - 1])
  }

  /** None of the four terminal characters occurs in `s`. */
  predicate NoTerminal(s: string) {
    '.' !in s && '!' !in s && '?' !in s && ';' !in s
  }

  /** `i` is the last terminal index when nothing after it is terminal. */
  lemma LastTerminalIndexAt(s: string, i: int)
    requires -1 <= i < |s| && (i != -1 ==> IsTerminal(s[i]))
    requires NoTerminal(s[i + 1..])
    ensures LastTerminalIndex(s) == i
  {
  }

  function Max(a: int, b: int): int {
    if a < b then b else a
  }

  /** `max([s.rfind(c) for c in '.!?;'])`: the last index of any terminal
      character, or -1. */
  function LastPunct(s: string): (r: int)
    ensures r == LastTerminalIndex(s)
  {
    var r := LastTerminalIndex(s);
    var a, b, c, d := RFind(s, '.'), RFind(s, '!'), RFind(s, '?'), RFind(s, ';');
    assert a <= r && b <= r && c <= r && d <= r;
    if r != -1 then
      assert s[r] == '.' ==> a == r;
      assert s[r] == '!' ==> b == r;
      assert s[r] == '?' ==> c == r;
      assert s[r] == ';' ==> d == r;
      Max(Max(a, b), Max(c, d))
    else
      Max(Max(a, b), Max(c, d))
  }


  /** Step 3, sentence completion. Text that does not end in terminal
      punctuation is cut just after its last terminal character when that
      character is at an index above 0; otherwise "." is appended. */
  function CompleteSentence(s: string): (r: string)
    ensures r != []
    ensures EndsInTerminal(r)
    ensures EndsInTerminal(s) ==> r == s
    ensures !EndsInTerminal(s) && LastTerminalIndex(s) > 0 ==> r == s[..LastTerminalIndex(s) + 1]
    ensures !EndsInTerminal(s) && LastTerminalIndex(s) <= 0 ==> r == s + "."
  {
    if EndsInTerminal(s) then s
    else
      var lastPunct := LastPunct(s);
      if lastPunct > 0 then
        var r := s[..lastPunct + 1];
        assert IsTerminal(r[lastPunct]) && r[lastPunct + 1..] == [];
        r
      else
        var r := s + ".";
        assert IsTerminal(r[|s|]) && r[|s| + 1..] == [];
        r
  }

  /** `clean_response(response, prompt)`. */
  function CleanResponse(response: string, prompt: string): (r: string)
    ensures r != []
    ensures EndsInTerminal(r)
    ensures forall k :: 0 <= k < |MARKERS| ==> !Contains(r, MARKERS[k])
  {
    MarkersShape();
    var cut := CutMarkers(StripEcho(response, prompt), MARKERS);
    CompleteSentenceAddsNoMarkers(cut);
    CompleteSentence(cut)
  }

  lemma CompleteSentenceAddsNoMarkers(s: string)
    requires forall k :: 0 <= k < |MARKERS| ==> !Contains(s, MARKERS[k])
    ensures forall k :: 0 <= k < |MARKERS| ==> !Contains(CompleteSentence(s), MARKERS[k])
  {
    MarkersShape();
    forall k | 0 <= k < |MARKERS| ensures !Contains(CompleteSentence(s), MARKERS[k]) {
      CompleteSentenceAddsNoMarker(s, MARKERS[k]);
    }
  }

  /** Every marker is a newline followed by a word and a colon. */
  lemma MarkersShape()
    ensures forall k :: 0 <= k < |MARKERS| ==>
      |MARKERS[k]| >= 3 && MARKERS[k][0] == '\n' && MARKERS[k][|MARKERS[k]| - 1] == ':'
  {
  }

  /** Text that ends in neither whitespace nor terminal punctuation, and
      whose last terminal character is at `i`, is completed by the `> 0` rule. */
  lemma CompleteUnfinished(s: string, i: int)
    requires s != [] && !IsSpace(s[|s| - 1]) && !IsTerminal(s[|s| - 1])
    requires -1 <= i < |s| && (i != -1 ==> IsTerminal(s[i])) && NoTerminal(s[i + 1..])
    ensures CompleteSentence(s) == if i > 0 then s[..i + 1] else s + "."
  {
    LastTerminalIndexAt(s, i);
    EndsInTerminalIffRStrip(s);
  }

  /** Sentence completion only cuts or appends ".", so it cannot create an
      occurrence of a marker that does not end in ".". */
  lemma CompleteSentenceAddsNoMarker(s: string, m: string)
    requires m != [] && m[|m| - 1] != '.' && !Contains(s, m)
    ensures !Contains(CompleteSentence(s), m)
  {
    if !EndsInTerminal(s) {
      if LastTerminalIndex(s) > 0 {
        NoOccurrenceInSlice(s, m, 0, LastTerminalIndex(s) + 1);
        assert s[0..LastTerminalIndex(s) + 1] == s[..LastTerminalIndex(s) + 1];
      } else {
        NoOccurrenceAppend(s, m, '.');
      }
    }
  }

  /** A response that does not start with the prompt, holds no marker and
      already ends in terminal punctuation comes back unchanged. */
  lemma CleanResponseKeepsCleanText(response: string, prompt: string)
    requires !(prompt <= response)
    requires forall k :: 0 <= k < |MARKERS| ==> !Contains(response, MARKERS[k])
    requires EndsInTerminal(response)
    ensures CleanResponse(response, prompt) == response
  {
    MarkersShape();
  }

  /** Text without a newline holds none of the markers. */
  lemma NoNewlineNoMarker(s: string)
    requires '\n' !in s
    ensures forall k :: 0 <= k < |MARKERS| ==> !Contains(s, MARKERS[k])
  {
    MarkersShape();
  }

  /** Text with no whitespace at either end is its own strip. */
  lemma StripTrimmed(s: string)
    requires s != [] && !IsSpace(s[0]) && !IsSpace(s[|s| - 1])
    ensures Strip(s) == s
  {
  }
}
