# AI Code Reviewer — verified model of its logic

The AI Code Reviewer is a browser page. A user pastes source code into an
editor. The page guesses the code's language with regular-expression
heuristics. It sends the code to a chat-completion service for review, and
it displays the returned critique and the refactored code. This project
models the three pieces of logic in the page. Everything else is rendering
or the network call.

- **Language detector** (`app.dfy`, module `App`). There is a fixed,
  ordered table of ten languages, and each language has its list of
  patterns. A language's score is the number of its patterns that match the
  buffer. The reduction over the table keeps the earliest language among
  those with the top score. The selected language changes only when the
  buffer is not blank and the best score is positive. Class `AppState` holds
  the component's `code` and `language` state and the three operations that
  overwrite them: detection, an editor change and a manual menu choice. The
  module also holds the two display expressions: menu labels and review
  section titles.
- **Review client** (`api.dfy`, module `Api`; records in `types.dfy`).
  `generatePrompt` puts the code inside a fenced block.
  `parseResponse` takes the greedy span from the first `{` to the last `}`.
  It hands that span to `JSON.parse` and requires both `review` and
  `refactoredCode` to be truthy. In every other case it returns a fixed
  fallback record. The model also covers how the answer text is read out of
  the completion envelope.
- **`titleCase`** (`utility.dfy`, module `Utility`). It lower-cases the
  string, splits it on single spaces, capitalises each word and joins the
  words again.
- `jsstring.dfy` (module `JsString`) holds the JavaScript string built-ins
  these pieces use: ASCII case mapping, `trim` and the
  `charAt(0).toUpperCase() + slice(1)` idiom. `wrappers.dfy` holds `Option`.

External behaviour is passed in as parameters:
- `test: (string, string) -> bool` answers `regex.test(text)`. Each pattern
  is given by its source text, copied from the table.
- `parse: string -> Option<JsonObject>` is `JSON.parse`, and `None` means
  that it threw.

Two details of the source shape the model:
- Validation (src/api.ts:65) requires the two fields to be *truthy*, not
  just present. So an empty `refactoredCode` also yields the fallback.
- Blank input (src/App.tsx:121) is detected with JavaScript's `trim`, which
  also strips the Unicode space separators, not just ASCII whitespace.

## Model

| member | source | states |
|---|---|---|
| `App.Scores` | src/App.tsx:124-129 | the score table: one `{ lang, score }` entry per language in table order; its meaning is stated by `App.ScoresAt` |
| `App.Reduce` | src/App.tsx:132-134 | the strict-`>` fold that keeps the earlier entry on ties; its result is characterised by `App.ReduceFindsFirstMax` |
| `App.BestMatch` | src/App.tsx:132-134 | `scores.reduce(...)` without an initial value, seeded by the first entry; characterised by `App.BestMatchIsFirstMax` |
| `App.Detect` | src/App.tsx:120-140 | the language `detectLanguage` leaves selected; its behaviour on every input is stated by `App.DetectBlankKeeps`, `App.DetectNoMatchKeeps` and `App.DetectPicksFirstBest` |
| `App.Languages` | src/App.tsx:103 | `languages`: the ten table keys in declaration order, the order that decides ties; `App.RankOfIndex` and `App.LanguageInTable` state that each language appears exactly once |
| `App.Patterns` | src/App.tsx:17-98 | each language's regexes as source text, in table order (5 for javascript, 4 for the others, as `App.LangScoreBounds` states) |
| `App.Score` | src/App.tsx:125-127 | a language's score, folded over its patterns, never exceeds the number of patterns |
| `App.ScoreCountsMatches` | src/App.tsx:124-129 | a score equals the number of distinct patterns that match the code (presence, not occurrences) |
| `App.LangScoreBounds` | src/App.tsx:17-98 | a language scores between 0 and its pattern count, which is 5 for javascript and 4 for every other language |
| `App.ScoresAt` | src/App.tsx:124-129 | the score table has one entry per language, at the language's position in table order, carrying that language's score |
| `App.ReduceFindsFirstMax` | src/App.tsx:132-134 | continuing the strict-`>` fold from a prefix whose earliest maximum is known ends at the earliest maximum of the whole table |
| `App.BestMatchIsFirstMax` | src/App.tsx:132-134 | the reduction returns an entry scoring at least every entry and strictly more than every earlier entry (ties go to the earliest) |
| `App.BestMatchIsFirstBest` | src/App.tsx:124-134 | read per language: the best match is a top-scoring language with every earlier-listed language scoring strictly less |
| `App.RankOfIndex` | src/App.tsx:101-103 | the position of each table entry is that language's rank, so the table lists each language once |
| `App.TableEntryRank` | src/App.tsx:124-129 | in the score table, each entry sits at its own language's rank and carries that language's score |
| `App.TableFirstMax` | src/App.tsx:124-134 | the first maximal entry of the score table names a top-scoring language that every earlier-listed language scores strictly below |
| `App.FirstBestUnique` | src/App.tsx:132-134 | the tie-break rule singles out exactly one language |
| `App.DetectBlankKeeps` | src/App.tsx:120-121 | empty or whitespace-only code leaves the current language unchanged |
| `App.DetectNoMatchKeeps` | src/App.tsx:136-139 | when every language scores zero, the current language is unchanged |
| `App.DetectPicksFirstBest` | src/App.tsx:120-140 | for non-blank code with some positive score, the detected language has a positive, maximal score and is the earliest in table order among those tied |
| `App.DetectSoleCandidate` | src/App.tsx:120-140 | code that is not blank and that only one language's patterns match selects that language |
| `App.LanguageInTable` | src/App.tsx:101-103 | every language value is one of the ten table keys |
| `App.AppState.constructor` | src/App.tsx:106-107 | the state starts with empty code and language javascript |
| `App.AppState.DetectLanguage` | src/App.tsx:120-140 | the language becomes the detected one and stays one of the table keys; the code is untouched |
| `App.AppState.HandleCodeChange` | src/App.tsx:142-146 | the code becomes the new value (`undefined` becomes `''`), the language is re-detected from it, and `undefined` leaves the language unchanged |
| `App.AppState.SelectLanguage` | src/App.tsx:205 | a manual choice sets the language to one of the table keys and leaves the code unchanged |
| `App.MenuLabel` | src/App.tsx:209 | the menu label `lang.charAt(0).toUpperCase() + lang.slice(1)`; characterised by `App.MenuLabelRecoversTag` |
| `App.MenuLabelRecoversTag` | src/App.tsx:207-209 | a menu label has the key's length, the key's first letter upper-cased, and the key's remaining characters unchanged; lower-casing it gives the key back, so labels are distinct |
| `App.SpaceBeforeCapitals` | src/App.tsx:298 | the replacement adds exactly one character per capital letter, and its result never starts with a capital |
| `App.SpacingRoundTrip` | src/App.tsx:298 | removing one space before each capital undoes the replacement, so nothing else changes |
| `App.SpacingKeepsLast` | src/App.tsx:298 | the replacement keeps the last character of the key |
| `App.LeadingCapitalTitle` | src/App.tsx:298 | a key that starts with a capital and does not end in whitespace gets a leading space from the replacement, and the trim removes exactly that space |
| `App.SectionTitle` | src/App.tsx:298 | the heading `section.replace(/([A-Z])/g, ' $1').trim()`; characterised by `App.SectionTitleOfKey` |
| `App.SectionTitleOfKey` | src/App.tsx:294-298 | for a key without whitespace, the title has no whitespace at either end, is one character longer than the key per capital (less one when the key starts with a capital, whose space the trim removes), and removing the inserted spaces gives the key back; together these fix the title (`codeStructure` becomes `code Structure`) |
| `JsString.Trim` | src/App.tsx:121 | `String.prototype.trim`, stripping the ECMAScript whitespace class; characterised by `JsString.Strip` and `JsString.StripEmptyIffAll` |
| `JsString.LowerCase` | src/utils/utility.ts:4 | `toLowerCase` character by character (ASCII letters only) |
| `JsString.CapitalizeFirst` | src/App.tsx:209 | `w.charAt(0).toUpperCase() + w.slice(1)`, with the empty word staying empty; characterised by `JsString.CapitalizeFirstLowerCase` |
| `JsString.IndexOf` | src/api.ts:56 | `indexOf` of one character, used for the first `{` and for each space that `split(" ")` cuts at: the first position holding the character, and none exactly when it does not occur |
| `JsString.SkipFrom` | src/App.tsx:121 | the leading run of a character class found by `trim` is exactly the characters in the class from the start up to the first one outside it |
| `JsString.SkipBackTo` | src/App.tsx:121 | the trailing run removed by `trim` is exactly the characters in the class back to the last one outside it |
| `JsString.Strip` | src/App.tsx:298 | `trim` (with the ECMAScript whitespace class) returns a contiguous piece of the input with only whitespace cut from both ends, and the result neither starts nor ends with whitespace |
| `JsString.StripEmptyIffAll` | src/App.tsx:121 | `!code.trim()` holds exactly when the code is empty or all whitespace |
| `JsString.StripKeepsStripped` | src/App.tsx:298 | trimming a string with no whitespace at either end changes nothing |
| `JsString.StripDropsLeading` | src/App.tsx:298 | a single whitespace character in front of an already trimmed string is removed by the trim |
| `JsString.CaseMappingFacts` | src/utils/utility.ts:4-6 | ASCII `toUpperCase` and `toLowerCase` are each idempotent, upper-casing ignores an earlier lower-casing, and neither creates or removes a space |
| `JsString.CapitalizeFirstLowerCase` | src/App.tsx:209 | capitalising a lower-case word keeps its length, upper-cases the first letter, leaves every later character as it was, and lower-casing gives the word back |
| `Api.LastIndexOf` | src/api.ts:56 | returns the position of the last occurrence of the character, or none when it does not occur |
| `Api.JsonSpan` | src/api.ts:56-59 | a match exists exactly when some `{` has a `}` after it; the match runs from the first `{` to the last `}` of the text |
| `Api.GreedySpanUnique` | src/api.ts:56 | the first-`{`-to-last-`}` span is unique |
| `Api.Fallback` | src/api.ts:73-82 | the fallback record: one `'Error parsing review response'` point under `codeStructure`, four empty lists, and `'Error parsing refactored code'` |
| `Api.IsComplete` | src/api.ts:65 | the validation: both fields present and truthy, so an empty `refactoredCode` fails |
| `Api.ParseResponse` | src/api.ts:53-84 | total; the result is the fallback, or exactly the object the parser produced from the span, with a non-empty refactored code |
| `Api.NoBracesGiveFallback` | src/api.ts:56-59 | text with no `{` followed by a `}` yields the fallback, whatever the parser does |
| `Api.RejectedSpanGivesFallback` | src/api.ts:62-67 | a span the parser rejects, or an object with a missing or falsy `review` or `refactoredCode` (including `""`), yields the fallback |
| `Api.SpanOfEmbedded` | src/api.ts:56 | a JSON object with no `{` before it and no `}` after it is exactly the span the regular expression matches |
| `Api.ParseRoundTrip` | src/api.ts:53-69 | a JSON object embedded in prose without braces around it is returned field for field |
| `Api.CompletionContent` | src/api.ts:109 | the content is non-empty exactly when the first choice has a message with non-empty content, and then it is that content unchanged |
| `Api.ReviewOfCompletion` | src/api.ts:109-110 | a missing first choice, message or content, or empty content, yields the fallback |
| `Api.GeneratePrompt` | src/api.ts:7-51 | the prompt template with the language and the code filled in; characterised by `Api.PromptFencesCode` and `Api.PromptEmbedsCode` |
| `Api.PromptFencesCode` | src/api.ts:7-51 | the prompt is the instructions, then `"```" + language + "\n" + code + "\n```"`, then the JSON shape |
| `Api.FencesOnOwnLines` | src/api.ts:10-16 | the instructions end with a line break and the JSON shape begins with one, so both fences sit on lines of their own |
| `Api.UnwrapWrapped` | src/api.ts:12-14 | text placed between an opening and a closing is read back out unchanged |
| `Api.PromptEmbedsCode` | src/api.ts:7-51 | the prompt carries the code verbatim between an opening three-backtick line naming the language and a closing three-backtick line; reading it back out gives the code |
| `Utility.Split` | src/utils/utility.ts:5 | `split(" ")` yields at least one word and no word contains a space |
| `Utility.Join` | src/utils/utility.ts:7 | `join(" ")`; the inverse of `Utility.Split` by `Utility.JoinSplit` and `Utility.SplitJoin` |
| `Utility.CapitalizeWords` | src/utils/utility.ts:6 | `map` of the first-letter capitalisation over the words; characterised by `Utility.JoinCapitalizedWords` |
| `Utility.JoinSplit` | src/utils/utility.ts:5-7 | joining the split words with single spaces gives the string back |
| `Utility.SplitJoin` | src/utils/utility.ts:5-7 | splitting a join of space-free words gives the words back |
| `Utility.SplitKeepsCharacters` | src/utils/utility.ts:5 | every character of every word comes from the input, so a property of all input characters holds of all word characters |
| `Utility.SplitSameShape` | src/utils/utility.ts:5 | strings with spaces at the same positions split into the same number of words of pairwise equal lengths |
| `Utility.JoinCapitalizedWords` | src/utils/utility.ts:6-7 | capitalising each word and re-joining upper-cases exactly the characters that start the string or follow a space |
| `Utility.UpperWordStartsOfLowered` | src/utils/utility.ts:4-6 | upper-casing the word starts of the lower-cased string gives, position by position, the upper-cased character at word starts and the lower-cased one elsewhere |
| `Utility.TitleCase` | src/utils/utility.ts:1-8 | `titleCase`: the empty string is returned as is, otherwise lower-case, split on spaces, capitalise each word, join; characterised by `Utility.TitleCaseMeetsSpec` |
| `Utility.TitleCaseMeetsSpec` | src/utils/utility.ts:1-8 | the result, position by position, is the input upper-cased at the start and after each space and lower-cased elsewhere (so `""` stays `""` and the length is kept) |
| `Utility.TitleCaseKeepsSpaces` | src/utils/utility.ts:4-7 | the output has the input's length and spaces at exactly the input's positions |
| `Utility.TitleCaseKeepsWords` | src/utils/utility.ts:5-7 | the number of space-separated words and each word's length are kept, so empty words from consecutive spaces stay empty |
| `Utility.TitleCaseWordsAreTitled` | src/utils/utility.ts:4-6 | in every word of the result the first character is upper-case and the others are lower-case |
| `Utility.TitleCaseSpecIdempotent` | src/utils/utility.ts:3-7 | the position-by-position statement of the result is itself idempotent, because case mapping never moves a space |
| `Utility.TitleCaseIdempotent` | src/utils/utility.ts:3-7 | applying titleCase twice is the same as applying it once |

## Left out

- The rendering is not modelled: JSX, MUI theming, media queries, the Monaco
  loader and worker registration, and the clipboard copy of the refactored
  code. It has no statable logic, or it calls foreign code.
- The HTTP request is not modelled: the POST, the bearer header, the API key
  read from the environment, and the rethrow as `'Failed to review code'`. It
  is network I/O. `ReviewOfCompletion` starts once a completion has arrived.
- `handleReview` is not modelled: its async loading flag, the `alert`, the
  `console.error` calls, and the double-submit guard that lives only in the
  button's `disabled` attribute. This is asynchronous UI plumbing.
- Regular-expression semantics are not modelled. Each pattern is matched
  through the `test` parameter. So the claim that code made only of one
  language's constructs selects that language is stated for an oracle
  (`DetectSoleCandidate`), not for concrete code.
- JSON parsing (RFC 8259) is not modelled; `JSON.parse` is the `parse`
  parameter.
- The `console.error` in `parseResponse`'s catch (src/api.ts:71) is not
  modelled; it is logging only, and the result is the fallback either way.
- An envelope without `choices` makes src/api.ts:109 throw into the catch that
  rethrows `'Failed to review code'`. That path belongs to the HTTP request
  left out above; `DeepseekResponse` always has a `choices` list.
- `ParseResponse`: the parsed object is seen only through its two validated
  fields. Extra keys are dropped. A truthy value of the wrong JSON type
  cannot be expressed, for example a number in `refactoredCode`, or a
  `review` object that lacks some of its five lists. The source returns such
  objects unchanged at run time.
- `TitleCase`, `MenuLabelRecoversTag` and `CapitalizeFirstLowerCase`:
  `toUpperCase`/`toLowerCase` are modelled for ASCII letters only, and other
  characters are left as they are. With Unicode case mapping the length can
  change (`ß` upper-cases to `SS`), so the length and idempotence results hold
  only for this ASCII model.
- Detection on every keystroke is modelled as one call per edit. The model
  has no notion of time or of the editor's event stream.
