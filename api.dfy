/** The review client (src/api.ts): the prompt sent to the completion
    service and the lenient parsing of its free-text answer. The HTTP call
    itself is outside the model; `JSON.parse` is a parameter. */
module Api {
  import opened Wrappers
  import opened Types
  import opened JsString

  /** What `JSON.parse` yields for an object, seen through the two fields
      the client validates. `None` stands for a field that is absent or
      holds a falsy non-string value (null, false, 0); a string field that
      is present is `Some`, so the falsy empty string stays visible. */
  datatype JsonObject = JsonObject(review: Option<CodeReview>, refactoredCode: Option<string>)

  /** `JSON.parse` as an oracle: `None` when it throws. */
  type JsonParser = string -> Option<JsonObject>

  /** The record returned whenever the answer cannot be used. */
  const Fallback: ReviewResponse :=
    ReviewResponse(
      CodeReview(["Error parsing review response"], [], [], [], []),
      "Error parsing refactored code")

  // ---------------------------------------------------------------------
  // Locating the JSON object: the regular expression /\{[\s\S]*\}/
  // ---------------------------------------------------------------------

  function LastIndexOf(s: string, c: char): (r: Option<nat>)
    ensures r.None? ==> forall k :: 0 <= k < |s| ==> s[k] != c
    ensures r.Some? ==> r.value < |s| && s[r.value] == c && forall k :: r.value < k < |s| ==> s[k] != c
  {
    if s == [] then None
    else if s[|s| - 1] == c then Some(|s| - 1)
    else LastIndexOf(s[..|s| - 1], c)
  }

  /** Some `{` is followed, somewhere later, by a `}`. */
  ghost predicate HasBracedSpan(s: string)
  {
    exists i, j :: 0 <= i < j < |s| && s[i] == '{' && s[j] == '}'
  }

  /** `s[i..j+1]` runs from the first `{` of `s` to its last `}`. */
  ghost predicate IsGreedySpan(s: string, i: int, j: int)
  {
    && 0 <= i < j < |s| && s[i] == '{' && s[j] == '}'
    && (forall k :: 0 <= k < i ==> s[k] != '{')
    && (forall k :: j < k < |s| ==> s[k] != '}')
  }

  /** The match of the greedy, unanchored /\{[\s\S]*\}/: the leftmost `{`
      that has a `}` after it is the first `{` overall, and the greedy star
      then reaches the last `}`. */
  function JsonSpan(s: string): (r: Option<string>)
    ensures r.None? <==> !HasBracedSpan(s)
    ensures r.Some? ==> exists i, j :: IsGreedySpan(s, i, j) && r.value == s[i..j + 1]
  {
    match (IndexOf(s, '{'), LastIndexOf(s, '}'))
    case (Some(i), Some(j)) =>
      if i < j then
        assert IsGreedySpan(s, i, j);
        Some(s[i..j + 1])
      else None
    case _ => None
  }

  /** The greedy span is unique: two candidate pairs coincide. */
  lemma GreedySpanUnique(s: string, i: int, j: int, i': int, j': int)
    requires IsGreedySpan(s, i, j) && IsGreedySpan(s, i', j')
    ensures i == i' && j == j'
  {
  }

  // ---------------------------------------------------------------------
  // parseResponse
  // ---------------------------------------------------------------------

  /** `!parsed.review || !parsed.refactoredCode` is false. */
  predicate IsComplete(obj: JsonObject)
  {
    obj.review.Some? && obj.refactoredCode.Some? && obj.refactoredCode.value != ""
  }

  /** `parseResponse`: never fails; any problem yields Fallback. A result
      other than Fallback is exactly what the JSON parser produced from the
      span, and carries a non-empty refactored code. */
  function ParseResponse(response: string, parse: JsonParser): (r: ReviewResponse)
    ensures r == Fallback || (
      && JsonSpan(response).Some?
      && parse(JsonSpan(response).value) == Some(JsonObject(Some(r.review), Some(r.refactoredCode)))
      && r.refactoredCode != "")
  {
    match JsonSpan(response)
    case None => Fallback
    case Some(span) =>
      match parse(span)
      case None => Fallback
      case Some(obj) =>
        if IsComplete(obj) then ReviewResponse(obj.review.value, obj.refactoredCode.value)
        else Fallback
  }

  /** No `{ ... }` in the text: the fallback, whatever the parser does. */
  lemma NoBracesGiveFallback(response: string, parse: JsonParser)
    requires forall i, j :: 0 <= i < j < |response| && response[i] == '{' ==> response[j] != '}'
    ensures ParseResponse(response, parse) == Fallback
  {
  }

  /** A span the parser rejects, or an object missing (or with a falsy)
      `review` or `refactoredCode`, gives the fallback. */
  lemma RejectedSpanGivesFallback(response: string, parse: JsonParser)
    requires JsonSpan(response).Some?
    requires parse(JsonSpan(response).value).None? || !IsComplete(parse(JsonSpan(response).value).value)
    ensures ParseResponse(response, parse) == Fallback
  {
  }

  /** A JSON object embedded in prose without `{` before it and without
      `}` after it is exactly the span the regular expression matches. */
  lemma SpanOfEmbedded(prefix: string, json: string, suffix: string)
    requires forall k :: 0 <= k < |prefix| ==> prefix[k] != '{'
    requires forall k :: 0 <= k < |suffix| ==> suffix[k] != '}'
    requires |json| >= 2 && json[0] == '{' && json[|json| - 1] == '}'
    ensures JsonSpan(prefix + json + suffix) == Some(json)
  {
    var s := prefix + json + suffix;
    var i0, j0 := |prefix|, |prefix| + |json| - 1;
    assert s[i0] == json[0] && s[j0] == json[|json| - 1];
    forall k | 0 <= k < i0 ensures s[k] != '{' {
      assert s[k] == prefix[k];
    }
    forall k | j0 < k < |s| ensures s[k] != '}' {
      assert s[k] == suffix[k - j0 - 1];
    }
    assert IsGreedySpan(s, i0, j0);
    var i, j :| IsGreedySpan(s, i, j) && JsonSpan(s).value == s[i..j + 1];
    GreedySpanUnique(s, i, j, i0, j0);
    assert s[i0..j0 + 1] == json;
  }

  /** Round trip: prose without `{` before a JSON object and prose without
      `}` after it do not disturb the extraction, and a complete object is
      returned field for field. */
  lemma ParseRoundTrip(prefix: string, json: string, suffix: string, parse: JsonParser, expected: ReviewResponse)
    requires forall k :: 0 <= k < |prefix| ==> prefix[k] != '{'
    requires forall k :: 0 <= k < |suffix| ==> suffix[k] != '}'
    requires |json| >= 2 && json[0] == '{' && json[|json| - 1] == '}'
    requires expected.refactoredCode != ""
    requires parse(json) == Some(JsonObject(Some(expected.review), Some(expected.refactoredCode)))
    ensures ParseResponse(prefix + json + suffix, parse) == expected
  {
    SpanOfEmbedded(prefix, json, suffix);
  }

  // ---------------------------------------------------------------------
  // reviewCode, after the HTTP call has returned
  // ---------------------------------------------------------------------

  /** `response.data.choices[0]?.message?.content || ''`. */
  function CompletionContent(response: DeepseekResponse): (r: string)
    ensures r != "" <==>
      && |response.choices| > 0
      && response.choices[0].message.Some?
      && response.choices[0].message.value.content.Some?
      && response.choices[0].message.value.content.value != ""
    ensures r != "" ==> r == response.choices[0].message.value.content.value
  {
    if |response.choices| == 0 then ""
    else match response.choices[0].message
      case None => ""
      case Some(m) => match m.content
        case None => ""
        case Some(c) => c
  }

  /** What `reviewCode` returns once the service has answered. */
  function ReviewOfCompletion(response: DeepseekResponse, parse: JsonParser): (r: ReviewResponse)
    ensures CompletionContent(response) == "" ==> r == Fallback
  {
    ParseResponse(CompletionContent(response), parse)
  }

  // ---------------------------------------------------------------------
  // generatePrompt
  // ---------------------------------------------------------------------

  /** The instructions that precede the code fence. */
  function PromptHead(language: string): string
  {
    "You are an expert code reviewer. Please review the following " + language
      + " code and provide a detailed analysis.\n\nThe code is:\n\n"
  }

  /** The requested JSON shape, up to the language named in its last
      example point. */
  const JsonShapeHead: string := "Please provide your response in the following JSON format:\n\n{\n  \"review\": {\n    \"codeStructure\": [\n      // Array of points about code structure and organization\n      // e.g., \"Well-structured with clear interface definitions\",\n      // \"Good separation of concerns\",\n      // \"Consider adding JSDoc comments\"\n    ],\n    \"namingConventions\": [\n      // Array of points about naming conventions\n      // e.g., \"Consistent PascalCase for interfaces\",\n      // \"Clear and descriptive variable names\"\n    ],\n    \"codeQuality\": [\n      // Array of points about code quality\n      // e.g., \"Proper error handling\",\n      // \"Good type safety implementation\"\n    ],\n    \"performance\": [\n      // Array of points about performance\n      // e.g., \"Efficient data structures used\",\n      // \"Consider caching results\"\n    ],\n    \"bestPractices\": [\n      // Array of points about best practices\n      // e.g., \"Follows "

  /** The rest of the requested JSON shape and the closing instruction. */
  const JsonShapeTail: string := " conventions\",\n      // \"Good use of design patterns\"\n    ]\n  },\n  \"refactoredCode\": \"// Your refactored version of the code implementing the suggested improvements\"\n}\n\nEnsure each point in the arrays is specific, actionable, and complete. The refactored code should be a string containing the complete improved version of the code."

  /** The requested JSON shape that follows the code fence. */
  function PromptTail(language: string): string
  {
    "\n\n" + JsonShapeHead + language + JsonShapeTail
  }

  /** The opening fence line, tagged with the language. */
  function FenceOpen(language: string): string { "```" + language + "\n" }

  /** The closing fence line. */
  const FenceClose: string := "\n```"

  /** Everything up to and including the opening fence line. */
  function PromptOpen(language: string): string
  {
    PromptHead(language) + FenceOpen(language)
  }

  /** Everything from the closing fence line on. */
  function PromptClose(language: string): string
  {
    FenceClose + PromptTail(language)
  }

  /** `generatePrompt`: the code sits verbatim inside a fenced block. */
  function GeneratePrompt(code: string, language: string): string
  {
    PromptOpen(language) + code + PromptClose(language)
  }

  /** The prompt is the instructions, then a fenced block holding the code
      verbatim between an opening fence naming the language and a closing
      fence, then the requested JSON shape. */
  lemma PromptFencesCode(code: string, language: string)
    ensures GeneratePrompt(code, language)
      == PromptHead(language) + ("```" + language + "\n" + code + "\n```") + PromptTail(language)
  {
    var fenced := "```" + language + "\n" + code + "\n```";
    assert fenced == FenceOpen(language) + code + FenceClose;
    Regroup(PromptHead(language), FenceOpen(language), code, FenceClose, PromptTail(language));
  }

  /** Moving the fences from the surrounding text to the code. Kept as a
      lemma over plain strings so that the proof above does not reason
      about the long template text. */
  lemma Regroup(head: string, open: string, inner: string, close: string, tail: string)
    ensures (head + open) + inner + (close + tail) == head + (open + inner + close) + tail
  {
  }

  /** The opening fence starts a line and the closing fence ends one: the
      instructions end with a line break and the JSON shape starts with
      one. */
  lemma FencesOnOwnLines(language: string)
    ensures PromptHead(language)[|PromptHead(language)| - 1] == '\n'
    ensures PromptTail(language)[0] == '\n'
  {
  }

  /** The text between a given opening and closing, if `text` has them. */
  function Unwrap(text: string, open: string, close: string): Option<string>
  {
    if |text| >= |open| + |close| && text[..|open|] == open && text[|text| - |close|..] == close
    then Some(text[|open|..|text| - |close|])
    else None
  }

  /** Unwrapping what was wrapped gives the inner text back. */
  lemma UnwrapWrapped(open: string, inner: string, close: string)
    ensures Unwrap(open + inner + close, open, close) == Some(inner)
  {
    var t := open + inner + close;
    assert t[..|open|] == open;
    assert t[|t| - |close|..] == close;
    assert t[|open|..|t| - |close|] == inner;
  }

  /** Reads the code back out of a prompt for the given language, if the
      prompt has the template's shape. */
  function FencedCode(prompt: string, language: string): Option<string>
  {
    Unwrap(prompt, PromptOpen(language), PromptClose(language))
  }

  /** The prompt embeds the code verbatim: reading it back out of the fence
      gives the code that was put in. */
  lemma PromptEmbedsCode(code: string, language: string)
    ensures FencedCode(GeneratePrompt(code, language), language) == Some(code)
  {
    UnwrapWrapped(PromptOpen(language), code, PromptClose(language));
  }
}
