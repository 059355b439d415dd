/** `titleCase` (src/utils/utility.ts): lower-case the string, split it on
    single spaces, capitalise the first character of every word and join
    the words back with single spaces. */
module Utility {
  import opened JsString

  /** `s.split(" ")`: one word more than there are spaces; consecutive
      spaces produce empty words and `"".split(" ")` is `[""]`. */
  function Split(s: string): (ws: seq<string>)
    ensures |ws| >= 1
    ensures forall k :: 0 <= k < |ws| ==> ' ' !in ws[k]
    decreases |s|
  {
    if ' ' !in s then [s]
    else
      var i := IndexOf(s, ' ').value;
      assert ' ' !in s[..i] by {
        forall k | 0 <= k < i ensures s[..i][k] != ' ' { }
      }
      [s[..i]] + Split(s[i + 1..])
  }

  /** `ws.join(" ")`. */
  function Join(ws: seq<string>): string
  {
    if |ws| == 0 then ""
    else if |ws| == 1 then ws[0]
    else ws[0] + " " + Join(ws[1..])
  }

  /** `.map((word) => word.charAt(0).toUpperCase() + word.slice(1))`. */
  function CapitalizeWords(ws: seq<string>): seq<string>
  {
    seq(|ws|, k requires 0 <= k < |ws| => CapitalizeFirst(ws[k]))
  }

  /** `titleCase`: the empty string is returned as it is. */
  function TitleCase(s: string): string
  {
    if s == "" then s
    else Join(CapitalizeWords(Split(LowerCase(s))))
  }

  // ---------------------------------------------------------------------
  // Reference definitions
  // ---------------------------------------------------------------------

  /** Character-wise statement of the result: a character that starts the
      string or follows a space is upper-cased, every other character is
      lower-cased. */
  function TitleCaseSpec(s: string): string
  {
    seq(|s|, i requires 0 <= i < |s| =>
      if i == 0 || s[i - 1] == ' ' then ToUpper(s[i]) else ToLower(s[i]))
  }

  /** Upper-cases the characters that start the string or follow a space. */
  function UpperWordStarts(t: string): string
  {
    seq(|t|, i requires 0 <= i < |t| =>
      if i == 0 || t[i - 1] == ' ' then ToUpper(t[i]) else t[i])
  }

  /** A word in title case: an upper-case (or caseless) first character,
      then only lower-case (or caseless) characters. */
  predicate IsTitleWord(w: string)
  {
    w == "" || (ToUpper(w[0]) == w[0] && forall k :: 1 <= k < |w| ==> ToLower(w[k]) == w[k])
  }

  // ---------------------------------------------------------------------
  // Split and Join are inverse to each other
  // ---------------------------------------------------------------------

  lemma {:induction false} JoinSplit(s: string)
    ensures Join(Split(s)) == s
    decreases |s|
  {
    if ' ' in s {
      var i := IndexOf(s, ' ').value;
      var rest := Split(s[i + 1..]);
      assert Split(s) == [s[..i]] + rest;
      assert ([s[..i]] + rest)[1..] == rest;
      JoinSplit(s[i + 1..]);
      assert s == s[..i] + " " + s[i + 1..];
    }
  }

  lemma {:induction false} SplitJoin(ws: seq<string>)
    requires |ws| >= 1
    requires forall k :: 0 <= k < |ws| ==> ' ' !in ws[k]
    ensures Split(Join(ws)) == ws
  {
    if |ws| > 1 {
      var s := Join(ws);
      var w := ws[0];
      assert s == w + " " + Join(ws[1..]);
      assert s[|w|] == ' ';
      var i := IndexOf(s, ' ').value;
      assert i == |w|;
      assert s[..i] == w;
      assert s[i + 1..] == Join(ws[1..]);
      SplitJoin(ws[1..]);
      assert ws == [w] + ws[1..];
    } else {
      assert Join(ws) == ws[0];
    }
  }

  /** Every character of every word of `Split(s)` satisfies what every
      character of `s` satisfies. */
  lemma {:induction false} SplitKeepsCharacters(s: string, p: char -> bool)
    requires forall i :: 0 <= i < |s| ==> p(s[i])
    ensures forall k, i :: 0 <= k < |Split(s)| && 0 <= i < |Split(s)[k]| ==> p(Split(s)[k][i])
    decreases |s|
  {
    if ' ' in s {
      var i := IndexOf(s, ' ').value;
      SplitKeepsCharacters(s[i + 1..], p);
      assert Split(s) == [s[..i]] + Split(s[i + 1..]);
    }
  }

  /** Two strings with spaces at the same positions split into the same
      number of words, of pairwise equal lengths. */
  lemma {:induction false} SplitSameShape(s: string, t: string)
    requires |s| == |t|
    requires forall i :: 0 <= i < |s| ==> (s[i] == ' ' <==> t[i] == ' ')
    ensures |Split(s)| == |Split(t)|
    ensures forall k :: 0 <= k < |Split(s)| ==> |Split(s)[k]| == |Split(t)[k]|
    decreases |s|
  {
    if ' ' in s {
      var i := IndexOf(s, ' ').value;
      assert t[i] == ' ';
      var j := IndexOf(t, ' ').value;
      assert i == j;
      SplitSameShape(s[i + 1..], t[i + 1..]);
      assert Split(s) == [s[..i]] + Split(s[i + 1..]);
      assert Split(t) == [t[..i]] + Split(t[i + 1..]);
    }
  }

  // ---------------------------------------------------------------------
  // What titleCase computes
  // ---------------------------------------------------------------------

  /** A space-free word gets only its first character upper-cased. */
  lemma UpperWordStartsOfWord(w: string)
    requires ' ' !in w
    ensures UpperWordStarts(w) == CapitalizeFirst(w)
  {
    forall k | 0 <= k < |w| ensures w[k] != ' ' {
      assert w[k] in w;
    }
  }

  /** Upper-casing word starts distributes over a space-free first word,
      a space, and the rest. */
  lemma UpperWordStartsAfterSpace(w: string, rest: string)
    requires ' ' !in w
    ensures UpperWordStarts(w + " " + rest) == UpperWordStarts(w) + " " + UpperWordStarts(rest)
  {
    var t := w + " " + rest;
    var i := |w|;
    var r := UpperWordStarts(w) + " " + UpperWordStarts(rest);
    forall k | 0 <= k < |t| ensures UpperWordStarts(t)[k] == r[k] {
      if k < i {
        if k > 0 { assert t[k - 1] == w[k - 1]; }
      } else if k > i + 1 {
        assert t[k - 1] == rest[k - i - 2];
      }
    }
  }

  /** One step of `Split` on a string that has a space. Stated on its
      own, like the other step lemmas below, so that the induction in
      JoinCapitalizedWords stays within its resource limit on every
      solver seed. */
  lemma SplitStep(t: string)
    requires ' ' in t
    ensures Split(t) == [t[..IndexOf(t, ' ').value]] + Split(t[IndexOf(t, ' ').value + 1..])
  {
  }

  /** A string is the part before a space, the space, and the part after
      (a step lemma for JoinCapitalizedWords). */
  lemma AroundSpace(t: string, i: nat)
    requires i < |t| && t[i] == ' '
    ensures t == t[..i] + " " + t[i + 1..]
  {
    assert t == t[..i] + t[i..];
    assert t[i..] == " " + t[i + 1..];
  }

  /** One step of `CapitalizeWords` (a step lemma for JoinCapitalizedWords). */
  lemma CapitalizeWordsStep(w: string, ws: seq<string>)
    ensures CapitalizeWords([w] + ws) == [CapitalizeFirst(w)] + CapitalizeWords(ws)
  {
  }

  /** One step of `Join` (a step lemma for JoinCapitalizedWords). */
  lemma JoinStep(w: string, ws: seq<string>)
    requires |ws| >= 1
    ensures Join([w] + ws) == w + " " + Join(ws)
  {
    assert ([w] + ws)[1..] == ws;
  }

  /** Capitalising each word and re-joining upper-cases exactly the
      characters that start the string or follow a space. */
  lemma {:induction false} JoinCapitalizedWords(t: string)
    ensures Join(CapitalizeWords(Split(t))) == UpperWordStarts(t)
    decreases |t|
  {
    if ' ' !in t {
      assert CapitalizeWords([t]) == [CapitalizeFirst(t)];
      UpperWordStartsOfWord(t);
    } else {
      var i := IndexOf(t, ' ').value;
      var w, rest := t[..i], t[i + 1..];
      SplitStep(t);
      AroundSpace(t, i);
      CapitalizeWordsStep(w, Split(rest));
      JoinStep(CapitalizeFirst(w), CapitalizeWords(Split(rest)));
      JoinCapitalizedWords(rest);
      UpperWordStartsOfWord(w);
      UpperWordStartsAfterSpace(w, rest);
    }
  }

  /** Upper-casing the word starts of the lower-cased string is the
      character-wise statement. */
  lemma UpperWordStartsOfLowered(s: string)
    ensures UpperWordStarts(LowerCase(s)) == TitleCaseSpec(s)
  {
    var l := LowerCase(s);
    forall i | 0 <= i < |s| ensures UpperWordStarts(l)[i] == TitleCaseSpec(s)[i] {
      CaseMappingFacts(s[i]);
      if i > 0 { CaseMappingFacts(s[i - 1]); }
    }
  }

  /** titleCase agrees with its character-wise statement: the length is
      kept (under ASCII case mapping), characters that start the string or
      follow a space are upper-cased and all others lower-cased. */
  lemma TitleCaseMeetsSpec(s: string)
    ensures TitleCase(s) == TitleCaseSpec(s)
  {
    if s != "" {
      JoinCapitalizedWords(LowerCase(s));
      UpperWordStartsOfLowered(s);
    }
  }

  /** Spaces stay where they were, and nothing else becomes a space. */
  lemma TitleCaseKeepsSpaces(s: string)
    ensures |TitleCase(s)| == |s|
    ensures forall i :: 0 <= i < |s| ==> (TitleCase(s)[i] == ' ' <==> s[i] == ' ')
  {
    TitleCaseMeetsSpec(s);
  }

  /** The number of space-separated words is preserved and so is each
      word's length; in particular an empty word stays empty. */
  lemma TitleCaseKeepsWords(s: string)
    ensures |Split(TitleCase(s))| == |Split(s)|
    ensures forall k :: 0 <= k < |Split(s)| ==> |Split(TitleCase(s))[k]| == |Split(s)[k]|
  {
    TitleCaseKeepsSpaces(s);
    SplitSameShape(s, TitleCase(s));
  }

  /** Every word of the result is in title case. */
  lemma TitleCaseWordsAreTitled(s: string)
    ensures forall k :: 0 <= k < |Split(TitleCase(s))| ==> IsTitleWord(Split(TitleCase(s))[k])
  {
    if s != "" {
      var l := LowerCase(s);
      var ws := Split(l);
      var cws := CapitalizeWords(ws);
      forall k | 0 <= k < |cws| ensures ' ' !in cws[k] {
        assert ' ' !in ws[k];
        if ws[k] != "" {
          assert cws[k] == [ToUpper(ws[k][0])] + ws[k][1..];
          assert ws[k][0] in ws[k];
          forall j | 0 <= j < |cws[k]| ensures cws[k][j] != ' ' {
            if j > 0 { assert cws[k][j] == ws[k][j]; assert ws[k][j] in ws[k]; }
          }
        }
      }
      SplitJoin(cws);
      SplitKeepsCharacters(l, c => ToLower(c) == c);
      forall k | 0 <= k < |cws| ensures IsTitleWord(cws[k]) {
        if ws[k] != "" {
          assert cws[k] == [ToUpper(ws[k][0])] + ws[k][1..];
          forall j | 1 <= j < |cws[k]| ensures ToLower(cws[k][j]) == cws[k][j] {
            assert cws[k][j] == ws[k][j];
          }
        }
      }
    } else {
      assert Split("") == [""];
    }
  }

  /** The character-wise statement is idempotent. */
  lemma TitleCaseSpecIdempotent(s: string)
    ensures TitleCaseSpec(TitleCaseSpec(s)) == TitleCaseSpec(s)
  {
    var t := TitleCaseSpec(s);
    var u := TitleCaseSpec(t);
    forall i | 0 <= i < |s| ensures u[i] == t[i] {
      CaseMappingFacts(s[i]);
      if i > 0 {
        CaseMappingFacts(s[i - 1]);
        assert t[i - 1] == ' ' <==> s[i - 1] == ' ';
      }
      if i == 0 || s[i - 1] == ' ' {
        assert t[i] == ToUpper(s[i]) && u[i] == ToUpper(t[i]);
      } else {
        assert t[i] == ToLower(s[i]) && u[i] == ToLower(t[i]);
      }
    }
    assert |u| == |t|;
  }

  /** For ASCII input, titleCase is idempotent. */
  lemma TitleCaseIdempotent(s: string)
    ensures TitleCase(TitleCase(s)) == TitleCase(s)
  {
    TitleCaseMeetsSpec(s);
    TitleCaseMeetsSpec(TitleCase(s));
    TitleCaseSpecIdempotent(s);
  }
}
