/** The logic of the App component (src/App.tsx): the heuristic language
    detector that runs on every edit, the component's `code`/`language`
    state, and the two string expressions used for display (menu labels and
    review section titles). Regular expressions stay abstract: each pattern
    is kept as its source text, and `test(pattern, code)` stands for
    `pattern.test(code)`. */
module App {
  import opened Wrappers
  import opened JsString

  /** `regex.test(text)` for a pattern given by its source text. None of
      the patterns carries the global flag, so the test has no state. */
  type RegexTest = (string, string) -> bool

  /** The keys of the pattern table, `SupportedLanguage`. */
  datatype Language = Java | TypeScript | JavaScript | Python | Cpp | CSharp | Php | Ruby | Go | Rust
  {
    /** The key as it appears in the table and in the editor. */
    function Tag(): string
    {
      match this
      case Java => "java"
      case TypeScript => "typescript"
      case JavaScript => "javascript"
      case Python => "python"
      case Cpp => "cpp"
      case CSharp => "csharp"
      case Php => "php"
      case Ruby => "ruby"
      case Go => "go"
      case Rust => "rust"
    }
  }

  /** `languages`: the table's keys in declaration order, which is the
      order in which `Object.entries` visits them. */
  const Languages: seq<Language> := [Java, TypeScript, JavaScript, Python, Cpp, CSharp, Php, Ruby, Go, Rust]

  /** Position of a language in the table. */
  function Rank(l: Language): (r: nat)
    ensures r < |Languages| && Languages[r] == l
  {
    match l
    case Java => 0
    case TypeScript => 1
    case JavaScript => 2
    case Python => 3
    case Cpp => 4
    case CSharp => 5
    case Php => 6
    case Ruby => 7
    case Go => 8
    case Rust => 9
  }

  /** `languagePatterns[l].patterns`, as regular-expression source text. */
  function Patterns(l: Language): seq<string>
  {
    match l
    case Java => [
      @"\bclass\s+\w+\s*\{",
      @"\bpublic\s+(?:class|interface|enum)\s+\w+",
      @"\bimport\s+java\.",
      @"\bpackage\s+[\w.]+;"]
    case TypeScript => [
      @":\s*(?:string|number|boolean|any)\b",
      @"interface\s+\w+\s*\{",
      @"type\s+\w+\s*=",
      @"import\s+{\s*[\w\s,]+}\s+from"]
    case JavaScript => [
      @"const\s+\w+\s*=",
      @"let\s+\w+\s*=",
      @"function\s*\w*\s*\(",
      @"=>\s*{",
      @"\bmodule\.exports\b"]
    case Python => [
      @"def\s+\w+\s*\(",
      @"import\s+\w+",
      @"from\s+\w+\s+import",
      @"class\s+\w+(?:\s*\([^)]*\))?\s*:"]
    case Cpp => [
      @"#include\s*[<""]",
      @"\bstd::",
      @"\busing\s+namespace\s+std\b",
      @"\bint\s+main\s*\(\s*(?:void|int\s+argc|char\s*\*\s*argv)\s*\)"]
    case CSharp => [
      @"using\s+System;",
      @"namespace\s+\w+",
      @"public\s+class\s+\w+",
      @"\bstring\[\]\s+args"]
    case Php => [
      @"<\?php",
      @"\$\w+\s*=",
      @"function\s+\w+\s*\(",
      @"namespace\s+\w+;"]
    case Ruby => [
      @"def\s+\w+",
      @"require\s+['""][^'""]+['""]",
      @"class\s+\w+\s*<?\s*\w*",
      @"\bmodule\s+\w+"]
    case Go => [
      @"package\s+main",
      @"import\s+\(",
      @"func\s+\w+\s*\(",
      @"type\s+\w+\s+struct"]
    case Rust => [
      @"fn\s+\w+",
      @"let\s+mut\s+\w+",
      @"use\s+std::",
      @"impl\s+\w+"]
  }

  // ---------------------------------------------------------------------
  // Scoring
  // ---------------------------------------------------------------------

  /** `patterns.reduce((count, pattern) => count + (pattern.test(code) ? 1 : 0), 0)`:
      a left fold, so the last pattern is added to the count of the others.
      A score never exceeds the number of patterns. */
  function Score(test: RegexTest, patterns: seq<string>, code: string): (n: nat)
    ensures n <= |patterns|
  {
    if patterns == [] then 0
    else
      var last := |patterns| - 1;
      Score(test, patterns[..last], code) + (if test(patterns[last], code) then 1 else 0)
  }

  /** The positions of the patterns that match `code`. */
  ghost function MatchingPatterns(test: RegexTest, patterns: seq<string>, code: string): set<int>
  {
    set i | 0 <= i < |patterns| && test(patterns[i], code)
  }

  /** A score counts the patterns that match, each at most once. */
  lemma {:induction false} ScoreCountsMatches(test: RegexTest, patterns: seq<string>, code: string)
    ensures Score(test, patterns, code) == |MatchingPatterns(test, patterns, code)|
  {
    if patterns != [] {
      var last := |patterns| - 1;
      var before := MatchingPatterns(test, patterns[..last], code);
      ScoreCountsMatches(test, patterns[..last], code);
      assert last !in before;
      if test(patterns[last], code) {
        assert MatchingPatterns(test, patterns, code) == before + {last};
      } else {
        assert MatchingPatterns(test, patterns, code) == before;
      }
    }
  }

  /** The score of one language. */
  function LangScore(test: RegexTest, l: Language, code: string): nat
  {
    Score(test, Patterns(l), code)
  }

  /** A language scores at most its number of patterns: five for
      javascript, four for every other language. */
  lemma LangScoreBounds(test: RegexTest, l: Language, code: string)
    ensures LangScore(test, l, code) <= |Patterns(l)|
    ensures |Patterns(l)| == if l == JavaScript then 5 else 4
  {
  }

  /** `{ lang, score }`. */
  datatype Scored = Scored(lang: Language, score: nat)

  /** `Object.entries(languagePatterns).map(...)`: one entry per language,
      in table order. */
  function Scores(test: RegexTest, code: string): seq<Scored>
  {
    seq(|Languages|, i requires 0 <= i < |Languages| => Scored(Languages[i], LangScore(test, Languages[i], code)))
  }

  // ---------------------------------------------------------------------
  // Selecting the best match
  // ---------------------------------------------------------------------

  /** `rest.reduce((best, current) => current.score > best.score ? current : best, best)`. */
  function Reduce(best: Scored, rest: seq<Scored>): Scored
    decreases |rest|
  {
    if rest == [] then best
    else Reduce(if rest[0].score > best.score then rest[0] else best, rest[1..])
  }

  /** `scores.reduce(...)` without an initial value: the first entry seeds
      the fold, which is why the array must not be empty. */
  function BestMatch(scores: seq<Scored>): Scored
    requires |scores| > 0
  {
    Reduce(scores[0], scores[1..])
  }

  /** Among the first `m` entries, entry `k` has a maximal score and every
      entry before it scores strictly less. */
  ghost predicate IsFirstMaxUpTo(scores: seq<Scored>, m: int, k: int)
  {
    && 0 <= k < m <= |scores|
    && (forall j :: 0 <= j < m ==> scores[j].score <= scores[k].score)
    && (forall j :: 0 <= j < k ==> scores[j].score < scores[k].score)
  }

  lemma {:induction false} ReduceFindsFirstMax(scores: seq<Scored>, m: nat, k: nat)
    requires IsFirstMaxUpTo(scores, m, k)
    ensures exists k' :: IsFirstMaxUpTo(scores, |scores|, k') && Reduce(scores[k], scores[m..]) == scores[k']
    decreases |scores| - m
  {
    if m == |scores| {
      assert scores[m..] == [];
    } else {
      assert scores[m..][0] == scores[m] && scores[m..][1..] == scores[m + 1..];
      if scores[m].score > scores[k].score {
        assert Reduce(scores[k], scores[m..]) == Reduce(scores[m], scores[m + 1..]);
        assert IsFirstMaxUpTo(scores, m + 1, m);
        ReduceFindsFirstMax(scores, m + 1, m);
      } else {
        assert Reduce(scores[k], scores[m..]) == Reduce(scores[k], scores[m + 1..]);
        assert IsFirstMaxUpTo(scores, m + 1, k);
        ReduceFindsFirstMax(scores, m + 1, k);
      }
    }
  }

  /** The strict `>` makes the fold return the earliest entry of maximal
      score: it scores at least as much as every entry and strictly more
      than every entry before it. */
  lemma BestMatchIsFirstMax(scores: seq<Scored>)
    requires |scores| > 0
    ensures exists k :: IsFirstMaxUpTo(scores, |scores|, k) && BestMatch(scores) == scores[k]
  {
    assert IsFirstMaxUpTo(scores, 1, 0);
    ReduceFindsFirstMax(scores, 1, 0);
  }

  // ---------------------------------------------------------------------
  // detectLanguage
  // ---------------------------------------------------------------------

  /** The language `detectLanguage` leaves selected: blank code changes
      nothing; otherwise the best match is taken if it scored at all. */
  function Detect(current: Language, code: string, test: RegexTest): Language
  {
    if Trim(code) == "" then current
    else
      var best := BestMatch(Scores(test, code));
      if best.score > 0 then best.lang else current
  }

  /** `l` has the highest score, and every language earlier in the table
      scores strictly less. */
  ghost predicate IsFirstBest(test: RegexTest, code: string, l: Language)
  {
    && (forall l' :: LangScore(test, l', code) <= LangScore(test, l, code))
    && (forall l' :: Rank(l') < Rank(l) ==> LangScore(test, l', code) < LangScore(test, l, code))
  }

  /** There is only one first best language. */
  lemma FirstBestUnique(test: RegexTest, code: string, l1: Language, l2: Language)
    requires IsFirstBest(test, code, l1) && IsFirstBest(test, code, l2)
    ensures l1 == l2
  {
    assert Languages[Rank(l1)] == l1 && Languages[Rank(l2)] == l2;
  }

  /** `sc` holds, at each language's rank, that language's score. */
  ghost predicate IsScoreTable(test: RegexTest, code: string, sc: seq<Scored>)
  {
    && |sc| == |Languages|
    && (forall l :: sc[Rank(l)] == Scored(l, LangScore(test, l, code)))
  }

  /** The score table has one entry per language, at the language's rank. */
  lemma ScoresAt(test: RegexTest, code: string, l: Language)
    ensures |Scores(test, code)| == |Languages|
    ensures Scores(test, code)[Rank(l)] == Scored(l, LangScore(test, l, code))
  {
  }

  /** An entry of the table sits at the rank of its own language. */
  lemma TableEntryRank(test: RegexTest, code: string, sc: seq<Scored>, k: int)
    requires IsScoreTable(test, code, sc) && 0 <= k < |sc|
    ensures Rank(sc[k].lang) == k && sc[k].score == LangScore(test, sc[k].lang, code)
  {
    RankOfIndex(k);
  }

  /** Rank inverts indexing into the table. */
  lemma RankOfIndex(k: int)
    requires 0 <= k < |Languages|
    ensures Rank(Languages[k]) == k
  {
    if k < 5 {
      if k == 0 { assert Languages[0] == Java; }
      else if k == 1 { assert Languages[1] == TypeScript; }
      else if k == 2 { assert Languages[2] == JavaScript; }
      else if k == 3 { assert Languages[3] == Python; }
      else { assert Languages[4] == Cpp; }
    } else {
      if k == 5 { assert Languages[5] == CSharp; }
      else if k == 6 { assert Languages[6] == Php; }
      else if k == 7 { assert Languages[7] == Ruby; }
      else if k == 8 { assert Languages[8] == Go; }
      else { assert Languages[9] == Rust; }
    }
  }

  /** Read per language, the first maximal entry of a table is the first
      best language. */
  lemma TableFirstMax(test: RegexTest, code: string, sc: seq<Scored>, k: int)
    requires IsScoreTable(test, code, sc) && IsFirstMaxUpTo(sc, |sc|, k)
    ensures IsFirstBest(test, code, sc[k].lang)
    ensures sc[k].score == LangScore(test, sc[k].lang, code)
  {
    var best := sc[k].lang;
    TableEntryRank(test, code, sc, k);
    forall l' ensures LangScore(test, l', code) <= LangScore(test, best, code) {
      assert sc[Rank(l')].score == LangScore(test, l', code);
    }
    forall l' | Rank(l') < Rank(best) ensures LangScore(test, l', code) < LangScore(test, best, code) {
      assert sc[Rank(l')].score == LangScore(test, l', code);
    }
  }

  /** The fold over the score table, read in terms of languages. */
  lemma BestMatchIsFirstBest(test: RegexTest, code: string)
    ensures IsFirstBest(test, code, BestMatch(Scores(test, code)).lang)
    ensures BestMatch(Scores(test, code)).score == LangScore(test, BestMatch(Scores(test, code)).lang, code)
  {
    var sc := Scores(test, code);
    forall l ensures sc[Rank(l)] == Scored(l, LangScore(test, l, code)) {
      ScoresAt(test, code, l);
    }
    BestMatchIsFirstMax(sc);
    var k :| IsFirstMaxUpTo(sc, |sc|, k) && BestMatch(sc) == sc[k];
    TableFirstMax(test, code, sc, k);
  }

  /** Empty or whitespace-only code leaves the language as it was. */
  lemma DetectBlankKeeps(current: Language, code: string, test: RegexTest)
    requires AllWhitespace(code)
    ensures Detect(current, code, test) == current
  {
    StripEmptyIffAll(code, IsWhitespace);
  }

  /** When no pattern of any language matches, the language is unchanged. */
  lemma DetectNoMatchKeeps(current: Language, code: string, test: RegexTest)
    requires forall l :: LangScore(test, l, code) == 0
    ensures Detect(current, code, test) == current
  {
    if Trim(code) != "" {
      BestMatchIsFirstBest(test, code);
    }
  }

  /** Otherwise the language becomes the first best one: a highest-scoring
      language, and among those sharing the top score the earliest in the
      table (java, typescript, javascript, python, cpp, csharp, php, ruby,
      go, rust). */
  lemma DetectPicksFirstBest(current: Language, code: string, test: RegexTest)
    requires !AllWhitespace(code)
    requires exists l :: LangScore(test, l, code) > 0
    ensures IsFirstBest(test, code, Detect(current, code, test))
    ensures LangScore(test, Detect(current, code, test), code) > 0
  {
    StripEmptyIffAll(code, IsWhitespace);
    BestMatchIsFirstBest(test, code);
  }

  /** Code that only one language's patterns recognise selects that
      language. */
  lemma DetectSoleCandidate(current: Language, code: string, test: RegexTest, l: Language)
    requires !AllWhitespace(code)
    requires LangScore(test, l, code) > 0
    requires forall l' :: l' != l ==> LangScore(test, l', code) == 0
    ensures Detect(current, code, test) == l
  {
    DetectPicksFirstBest(current, code, test);
  }

  /** The closed set of languages is exactly the table. */
  lemma LanguageInTable(l: Language)
    ensures l in Languages
  {
    assert Languages[Rank(l)] == l;
  }

  // ---------------------------------------------------------------------
  // The component's state
  // ---------------------------------------------------------------------

  /** The `code` and `language` state of the App component. */
  class AppState {
    var code: string
    var language: Language

    /** `useState('')` and `useState<SupportedLanguage>('javascript')`. */
    constructor ()
      ensures code == "" && language == JavaScript
    {
      code := "";
      language := JavaScript;
    }

    /** `detectLanguage(code)`: overwrites the language with the detected
        one, which is always one of the table's keys. */
    method DetectLanguage(text: string, test: RegexTest)
      modifies this`language
      ensures language == Detect(old(language), text, test)
      ensures language in Languages
    {
      language := Detect(language, text, test);
      LanguageInTable(language);
    }

    /** `handleCodeChange(value)`: the editor reports `undefined` for no
        value, which becomes the empty code and so keeps the language. */
    method HandleCodeChange(value: Option<string>, test: RegexTest)
      modifies this
      ensures code == (if value.Some? then value.value else "")
      ensures language == Detect(old(language), code, test)
      ensures value.None? ==> language == old(language)
    {
      var newCode := if value.Some? then value.value else "";
      code := newCode;
      DetectLanguage(newCode, test);
      if value.None? {
        DetectBlankKeeps(old(language), newCode, test);
      }
    }

    /** The menu's `onChange`: a manual choice replaces the language and
        leaves the code alone. */
    method SelectLanguage(l: Language)
      modifies this`language
      ensures language == l && language in Languages
      ensures code == old(code)
    {
      language := l;
      LanguageInTable(l);
    }
  }

  // ---------------------------------------------------------------------
  // Display strings
  // ---------------------------------------------------------------------

  /** The menu label of a language:
      `lang.charAt(0).toUpperCase() + lang.slice(1)`. */
  function MenuLabel(l: Language): string
  {
    CapitalizeFirst(l.Tag())
  }

  /** A menu label differs from its key only in an upper-cased first
      letter: same length, and lower-casing it gives the key back, so the
      ten labels are distinct. */
  lemma MenuLabelRecoversTag(l: Language)
    ensures |MenuLabel(l)| == |l.Tag()|
    ensures IsUpper(MenuLabel(l)[0]) && MenuLabel(l)[0] == ToUpper(l.Tag()[0])
    ensures MenuLabel(l)[1..] == l.Tag()[1..]
    ensures LowerCase(MenuLabel(l)) == l.Tag()
  {
    var t := l.Tag();
    assert forall i :: 0 <= i < |t| ==> IsLower(t[i]);
    CapitalizeFirstLowerCase(t);
  }

  /** `s.replace(/([A-Z])/g, ' $1')`: a space before every ASCII capital. */
  function SpaceBeforeCapitals(s: string): (r: string)
    ensures |r| == |s| + CountCapitals(s)
    ensures r == "" || !IsUpper(r[0])
  {
    if s == "" then ""
    else (if IsUpper(s[0]) then [' ', s[0]] else [s[0]]) + SpaceBeforeCapitals(s[1..])
  }

  /** The number of ASCII capitals in `s`. */
  function CountCapitals(s: string): nat
  {
    if s == "" then 0 else (if IsUpper(s[0]) then 1 else 0) + CountCapitals(s[1..])
  }

  /** Removes one space in front of each capital. */
  function RemoveSpaceBeforeCapitals(t: string): string
  {
    if |t| >= 2 && t[0] == ' ' && IsUpper(t[1]) then [t[1]] + RemoveSpaceBeforeCapitals(t[2..])
    else if t == "" then ""
    else [t[0]] + RemoveSpaceBeforeCapitals(t[1..])
  }

  /** Exactly one space is inserted before each capital, and nothing else
      changes: removing those spaces gives the original back. */
  lemma {:induction false} SpacingRoundTrip(s: string)
    ensures RemoveSpaceBeforeCapitals(SpaceBeforeCapitals(s)) == s
  {
    if s != "" {
      var rest := SpaceBeforeCapitals(s[1..]);
      SpacingRoundTrip(s[1..]);
      if IsUpper(s[0]) {
        assert SpaceBeforeCapitals(s) == [' ', s[0]] + rest;
        assert ([' ', s[0]] + rest)[2..] == rest;
      } else {
        assert SpaceBeforeCapitals(s) == [s[0]] + rest;
        assert ([s[0]] + rest)[1..] == rest;
      }
      assert s == [s[0]] + s[1..];
    }
  }

  /** The last character of `SpaceBeforeCapitals(s)` is that of `s`. */
  lemma {:induction false} SpacingKeepsLast(s: string)
    requires s != ""
    ensures SpaceBeforeCapitals(s)[|SpaceBeforeCapitals(s)| - 1] == s[|s| - 1]
  {
    if |s| > 1 {
      SpacingKeepsLast(s[1..]);
    }
  }

  /** The section heading shown for a review key:
      `section.replace(/([A-Z])/g, ' $1').trim()`. */
  function SectionTitle(key: string): string
  {
    Trim(SpaceBeforeCapitals(key))
  }

  /** With a capital in front, the replacement starts with a space that
      the trim then removes. */
  lemma LeadingCapitalTitle(key: string)
    requires key != "" && IsUpper(key[0]) && !IsWhitespace(key[|key| - 1])
    ensures SectionTitle(key) == [key[0]] + SpaceBeforeCapitals(key[1..])
  {
    var t := [key[0]] + SpaceBeforeCapitals(key[1..]);
    var spaced := SpaceBeforeCapitals(key);
    assert spaced == [' '] + t;
    SpacingKeepsLast(key);
    assert t[|t| - 1] == spaced[|spaced| - 1] == key[|key| - 1];
    assert !IsWhitespace(t[0]);
    StripDropsLeading(' ', t, IsWhitespace);
  }

  /** A capital without its space is restored like one with it. */
  lemma RemoveBeforeLeadingCapital(c: char, rest: string)
    requires IsUpper(c)
    ensures RemoveSpaceBeforeCapitals([c] + rest) == RemoveSpaceBeforeCapitals([' ', c] + rest)
  {
    assert ([c] + rest)[1..] == rest;
    assert ([' ', c] + rest)[2..] == rest;
  }

  /** For a key without whitespace (every field name is one), the heading
      has no whitespace at either end, and dropping the inserted spaces
      gives the key back: a capital at the start loses its space to the
      trim, every other capital keeps exactly one. */
  lemma SectionTitleOfKey(key: string)
    requires forall i :: 0 <= i < |key| ==> !IsWhitespace(key[i])
    ensures SectionTitle(key) == "" || (!IsWhitespace(SectionTitle(key)[0]) && !IsWhitespace(SectionTitle(key)[|SectionTitle(key)| - 1]))
    ensures RemoveSpaceBeforeCapitals(SectionTitle(key)) == key
    ensures |SectionTitle(key)| == |key| + CountCapitals(key) - (if key != "" && IsUpper(key[0]) then 1 else 0)
  {
    SpacingRoundTrip(key);
    if key != "" {
      if IsUpper(key[0]) {
        var rest := SpaceBeforeCapitals(key[1..]);
        LeadingCapitalTitle(key);
        RemoveBeforeLeadingCapital(key[0], rest);
        assert SpaceBeforeCapitals(key) == [' ', key[0]] + rest;
      } else {
        SpacingKeepsLast(key);
        StripKeepsStripped(SpaceBeforeCapitals(key), IsWhitespace);
      }
    }
  }
}
