/** The date key and the keyword sentiment scorer (src/utils/helpers.ts). */
module Helpers {
  import opened Types

  // ---------------------------------------------------------------------
  // formatDate

  /** The timestamp `ms` lies within UTC day number `day`. */
  ghost predicate OnDay(ms: int, day: int)
  {
    day * MsPerDay <= ms < (day + 1) * MsPerDay
  }

  /** `formatDate`: the `YYYY-MM-DD` part of the ISO string names one UTC
      calendar day; here that day is given by its number since 1970-01-01. */
  function FormatDate(ms: int): (day: int)
    ensures OnDay(ms, day)
  {
    ms / MsPerDay
  }

  /** A timestamp lies within one UTC day only. */
  lemma OnOneDayOnly(ms: int, d1: int, d2: int)
    requires OnDay(ms, d1) && OnDay(ms, d2)
    ensures d1 == d2
  {
  }

  /** Two timestamps get the same key exactly when they fall on the same UTC day. */
  lemma SameKeyIffSameDay(a: int, b: int)
    ensures FormatDate(a) == FormatDate(b) <==> exists d :: OnDay(a, d) && OnDay(b, d)
  {
    if exists d :: OnDay(a, d) && OnDay(b, d) {
      var d :| OnDay(a, d) && OnDay(b, d);
      OnOneDayOnly(a, d, FormatDate(a));
      OnOneDayOnly(b, d, FormatDate(b));
    }
  }

  // ---------------------------------------------------------------------
  // analyzeSentiment

  const PositiveWords: seq<string> := [
    "happy", "joy", "excited", "great", "good", "love", "wonderful", "amazing",
    "excellent", "fantastic", "pleased", "delighted", "content"
  ]

  const NegativeWords: seq<string> := [
    "sad", "unhappy", "depressed", "angry", "upset", "frustrated", "annoyed",
    "disappointed", "terrible", "horrible", "awful", "miserable", "stressed"
  ]

  /** A character matched by the regular-expression class `\w`. */
  predicate IsWordChar(c: char)
  {
    ('a' <= c <= 'z') || ('A' <= c <= 'Z') || ('0' <= c <= '9') || c == '_'
  }

  function LowerChar(c: char): char
  {
    if 'A' <= c <= 'Z' then (c as int - 'A' as int + 'a' as int) as char else c
  }

  /** `toLowerCase`, for the letters A to Z. */
  function Lower(s: string): (r: string)
    ensures |r| == |s|
    ensures forall i :: 0 <= i < |s| ==> !('A' <= r[i] <= 'Z') && IsWordChar(r[i]) == IsWordChar(s[i])
    ensures forall i :: 0 <= i < |s| ==>
      if 'A' <= s[i] <= 'Z' then r[i] as int == s[i] as int + 32 else r[i] == s[i]
  {
    seq(|s|, i requires 0 <= i < |s| => LowerChar(s[i]))
  }

  /** `s` holds none of the letters A to Z. */
  predicate NoCapitals(s: string)
  {
    forall i :: 0 <= i < |s| ==> !('A' <= s[i] <= 'Z')
  }

  /** `v` is `w` with any of its letters a to z written as capitals. */
  predicate Recased(w: string, v: string)
  {
    |v| == |w| && forall i :: 0 <= i < |w| ==> v[i] == w[i] || ('a' <= w[i] <= 'z' && v[i] as int == w[i] as int - 32)
  }

  /** Lowering a recased word without capitals gives the word back. */
  lemma LowerUndoesRecasing(w: string, v: string)
    requires NoCapitals(w) && Recased(w, v)
    ensures Lower(v) == w
  {
    forall i | 0 <= i < |w|
      ensures Lower(v)[i] == w[i]
    {
      if v[i] != w[i] {
        assert 'A' <= v[i] <= 'Z';
      }
    }
  }

  predicate AllWordChars(s: string)
  {
    forall i :: 0 <= i < |s| ==> IsWordChar(s[i])
  }

  /** The word characters of `s`, in order. */
  function WordCharsOf(s: string): string
  {
    if s == [] then []
    else (if IsWordChar(s[0]) then [s[0]] else []) + WordCharsOf(s[1..])
  }

  function Concat(tokens: seq<string>): string
  {
    if tokens == [] then [] else tokens[0] + Concat(tokens[1..])
  }

  /** `s` with its leading run of non-word characters removed. */
  function SkipSeparators(s: string): (r: string)
    ensures |r| <= |s| && s[|s| - |r|..] == r
    ensures forall i :: 0 <= i < |s| - |r| ==> !IsWordChar(s[i])
    ensures r == [] || IsWordChar(r[0])
    ensures WordCharsOf(r) == WordCharsOf(s)
  {
    if s == [] || IsWordChar(s[0]) then s else SkipSeparators(s[1..])
  }

  /** `(current + s).split(/\W+/)`, where `current` is the word read so far:
      every maximal run of non-word characters separates two tokens, so a
      leading or trailing run yields an empty token, as in JavaScript.
      The tokens hold only word characters, and together exactly those of
      `current + s`, in order. */
  function SplitFrom(s: string, current: string): (tokens: seq<string>)
    requires AllWordChars(current)
    ensures |tokens| >= 1
    ensures forall k :: 0 <= k < |tokens| ==> AllWordChars(tokens[k])
    ensures forall k :: 0 < k < |tokens| - 1 ==> tokens[k] != []
    ensures current != [] || (s != [] && IsWordChar(s[0])) ==> tokens[0] != []
    ensures Concat(tokens) == current + WordCharsOf(s)
    decreases |s|
  {
    if s == [] then
      assert Concat([current]) == current + Concat([]);
      [current]
    else if IsWordChar(s[0]) then
      assert current + WordCharsOf(s) == (current + [s[0]]) + WordCharsOf(s[1..]);
      SplitFrom(s[1..], current + [s[0]])
    else
      var rest := SplitFrom(SkipSeparators(s[1..]), []);
      assert ([current] + rest)[1..] == rest;
      [current] + rest
  }

  function Words(s: string): seq<string>
  {
    SplitFrom(s, [])
  }

  /** No character of `s` is a word character. */
  predicate NoWordChars(s: string)
  {
    forall i :: 0 <= i < |s| ==> !IsWordChar(s[i])
  }

  /** `tokens` and `seps` are the pieces of a text cut at every maximal run of
      non-word characters: the tokens hold word characters only, every token
      but the first and the last is non-empty, and every separator is a
      non-empty run of non-word characters. */
  ghost predicate Separated(tokens: seq<string>, seps: seq<string>)
  {
    && |tokens| == |seps| + 1
    && (forall k :: 0 <= k < |tokens| ==> AllWordChars(tokens[k]))
    && (forall k :: 0 < k < |tokens| - 1 ==> tokens[k] != [])
    && (forall k :: 0 <= k < |seps| ==> seps[k] != [] && NoWordChars(seps[k]))
  }

  /** The text the tokens and separators spell, alternating and starting with a token. */
  function Join(tokens: seq<string>, seps: seq<string>): string
    requires |tokens| == |seps| + 1
    decreases |seps|
  {
    if seps == [] then tokens[0] else tokens[0] + seps[0] + Join(tokens[1..], seps[1..])
  }

  /** Splitting cuts the text exactly at its separator runs: the text is the
      tokens joined by non-empty runs of non-word characters. */
  lemma WordsSplitText(text: string)
    ensures exists seps :: Separated(Words(text), seps) && Join(Words(text), seps) == text
  {
    SplitFromIsSeparated(text, []);
    var seps :| Separated(SplitFrom(text, []), seps) && Join(SplitFrom(text, []), seps) == [] + text;
    assert [] + text == text;
    assert Separated(Words(text), seps) && Join(Words(text), seps) == text;
  }

  lemma {:induction false} SplitFromIsSeparated(s: string, current: string)
    requires AllWordChars(current)
    ensures exists seps :: Separated(SplitFrom(s, current), seps) && Join(SplitFrom(s, current), seps) == current + s
    decreases |s|, 1
  {
    var tokens := SplitFrom(s, current);
    if s == [] {
      assert Separated(tokens, []) && Join(tokens, []) == current + s;
    } else if IsWordChar(s[0]) {
      var longer := current + [s[0]];
      assert AllWordChars(longer);
      SplitFromIsSeparated(s[1..], longer);
      assert tokens == SplitFrom(s[1..], longer);
      var seps :| Separated(tokens, seps) && Join(tokens, seps) == longer + s[1..];
      assert longer + s[1..] == current + s;
      assert Separated(tokens, seps) && Join(tokens, seps) == current + s;
    } else {
      SeparatorBranch(s, current);
    }
  }

  /** The case of `SplitFromIsSeparated` where the text starts with a separator. */
  lemma {:induction false} SeparatorBranch(s: string, current: string)
    requires AllWordChars(current) && s != [] && !IsWordChar(s[0])
    ensures exists seps :: Separated(SplitFrom(s, current), seps) && Join(SplitFrom(s, current), seps) == current + s
    decreases |s|, 0
  {
    var t := SkipSeparators(s[1..]);
    var rest := SplitFrom(t, []);
    SplitAtSeparator(s, current);
    SplitFromIsSeparated(t, []);
    var seps' :| Separated(rest, seps') && Join(rest, seps') == [] + t;
    var sep := s[..|s| - |t|];
    SeparatorPrefix(s, t);
    SeparatorStep(current, sep, rest, seps');
    AppendPieces(current, sep, t, s);
    SeparatedWitness([current] + rest, [sep] + seps', current + s);
  }

  /** Text before a separator and the text after it join back into `current + s`. */
  lemma AppendPieces(current: string, sep: string, t: string, s: string)
    requires s == sep + t
    ensures current + sep + ([] + t) == current + s
  {
    assert [] + t == t;
  }

  /** One step of `SplitFrom` at a separator. */
  lemma SplitAtSeparator(s: string, current: string)
    requires AllWordChars(current) && s != [] && !IsWordChar(s[0])
    ensures SplitFrom(s, current) == [current] + SplitFrom(SkipSeparators(s[1..]), [])
  {
  }

  /** Introduces the existential of `SplitFromIsSeparated` with `seps` as its witness. */
  lemma SeparatedWitness(tokens: seq<string>, seps: seq<string>, text: string)
    requires Separated(tokens, seps) && Join(tokens, seps) == text
    ensures exists seps' :: Separated(tokens, seps') && Join(tokens, seps') == text
  {
  }

  /** `s` is a non-empty run of non-word characters followed by what skipping leaves. */
  lemma SeparatorPrefix(s: string, t: string)
    requires s != [] && !IsWordChar(s[0]) && t == SkipSeparators(s[1..])
    ensures |t| < |s| && s == s[..|s| - |t|] + t
    ensures NoWordChars(s[..|s| - |t|])
  {
    var u := s[1..];
    assert u[|u| - |t|..] == t;
    forall i | 1 <= i < |s| - |t| ensures !IsWordChar(s[i]) {
      assert s[i] == u[i - 1];
    }
    RunThenRest(s, |s| - |t|, t);
  }

  /** Splitting `s` at `n`, where the first `n` characters are non-word ones. */
  lemma RunThenRest(s: string, n: nat, t: string)
    requires 0 < n <= |s| && t == s[n..]
    requires forall i :: 0 <= i < n ==> !IsWordChar(s[i])
    ensures s == s[..n] + t && NoWordChars(s[..n])
  {
    assert forall i :: 0 <= i < n ==> s[..n][i] == s[i];
  }

  /** A token, a separator run, then a separated text, is a separated text. */
  lemma SeparatorStep(current: string, sep: string, rest: seq<string>, seps': seq<string>)
    requires AllWordChars(current) && sep != [] && NoWordChars(sep)
    requires Separated(rest, seps') && (|rest| == 1 || rest[0] != [])
    ensures Separated([current] + rest, [sep] + seps')
    ensures Join([current] + rest, [sep] + seps') == current + sep + Join(rest, seps')
  {
    var tokens := [current] + rest;
    var seps := [sep] + seps';
    assert tokens[1..] == rest && seps[1..] == seps';
    forall k | 0 < k < |tokens| - 1 ensures tokens[k] != [] {
      assert tokens[k] == rest[k - 1];
    }
    forall k | 0 <= k < |tokens| ensures AllWordChars(tokens[k]) {
      if k > 0 { assert tokens[k] == rest[k - 1]; }
    }
    forall k | 0 <= k < |seps| ensures seps[k] != [] && NoWordChars(seps[k]) {
      if k > 0 { assert seps[k] == seps'[k - 1]; }
    }
  }

  /** The round trip: splitting tokens joined by separator runs gives back the tokens. */
  lemma WordsOfJoin(tokens: seq<string>, seps: seq<string>)
    requires Separated(tokens, seps)
    ensures Words(Join(tokens, seps)) == tokens
  {
    SplitJoin(tokens, seps, []);
    assert [] + tokens[0] == tokens[0];
    assert tokens == [tokens[0]] + tokens[1..];
  }

  lemma {:induction false} SplitJoin(tokens: seq<string>, seps: seq<string>, current: string)
    requires Separated(tokens, seps) && AllWordChars(current)
    ensures SplitFrom(Join(tokens, seps), current) == [current + tokens[0]] + tokens[1..]
    decreases |seps|
  {
    if seps == [] {
      SplitWordRun(tokens[0], [], current);
      assert tokens[0] + [] == tokens[0] && tokens[1..] == [];
    } else {
      var rest := Join(tokens[1..], seps[1..]);
      assert Separated(tokens[1..], seps[1..]) by {
        forall k | 0 < k < |tokens[1..]| - 1 ensures tokens[1..][k] != [] {
          assert tokens[1..][k] == tokens[k + 1];
        }
        forall k | 0 <= k < |tokens[1..]| ensures AllWordChars(tokens[1..][k]) {
          assert tokens[1..][k] == tokens[k + 1];
        }
        forall k | 0 <= k < |seps[1..]| ensures seps[1..][k] != [] && NoWordChars(seps[1..][k]) {
          assert seps[1..][k] == seps[k + 1];
        }
      }
      SplitJoin(tokens[1..], seps[1..], []);
      assert AllWordChars(tokens[0]);
      assert tokens[0] + seps[0] + rest == tokens[0] + (seps[0] + rest);
      SplitWordRun(tokens[0], seps[0] + rest, current);
      JoinStart(tokens[1..], seps[1..]);
      SplitSeparatorRun(seps[0], rest, current + tokens[0]);
      assert [] + tokens[1] == tokens[1];
      assert tokens[1..] == [tokens[1]] + tokens[2..];
    }
  }

  /** A joined text is empty or starts with a word character, unless its first token is empty. */
  lemma JoinStart(tokens: seq<string>, seps: seq<string>)
    requires Separated(tokens, seps)
    ensures Join(tokens, seps) == [] || IsWordChar(Join(tokens, seps)[0]) || tokens[0] == []
  {
    if seps != [] && tokens[0] != [] {
      assert Join(tokens, seps)[0] == tokens[0][0];
    }
  }

  /** A run of word characters is added to the token being read. */
  lemma {:induction false} SplitWordRun(w: string, t: string, current: string)
    requires AllWordChars(w) && AllWordChars(current)
    ensures SplitFrom(w + t, current) == SplitFrom(t, current + w)
    decreases |w|
  {
    if w == [] {
      assert w + t == t && current + w == current;
    } else {
      assert (w + t)[0] == w[0] && (w + t)[1..] == w[1..] + t;
      assert AllWordChars(w[1..]) by {
        forall i | 0 <= i < |w[1..]| ensures IsWordChar(w[1..][i]) {
          assert w[1..][i] == w[i + 1];
        }
      }
      assert AllWordChars(current + [w[0]]);
      SplitWordRun(w[1..], t, current + [w[0]]);
      assert current + [w[0]] + w[1..] == current + w;
    }
  }

  /** A separator run ends the token being read; reading goes on after it. */
  lemma SplitSeparatorRun(sep: string, t: string, current: string)
    requires sep != [] && NoWordChars(sep) && AllWordChars(current)
    requires t == [] || IsWordChar(t[0])
    ensures SplitFrom(sep + t, current) == [current] + SplitFrom(t, [])
  {
    assert (sep + t)[0] == sep[0] && (sep + t)[1..] == sep[1..] + t;
    SkipSeparatorRun(sep[1..], t);
  }

  lemma {:induction false} SkipSeparatorRun(sep: string, t: string)
    requires NoWordChars(sep)
    requires t == [] || IsWordChar(t[0])
    ensures SkipSeparators(sep + t) == t
    decreases |sep|
  {
    if sep == [] {
      assert sep + t == t;
    } else {
      assert (sep + t)[0] == sep[0] && (sep + t)[1..] == sep[1..] + t;
      assert NoWordChars(sep[1..]) by {
        forall i | 0 <= i < |sep[1..]| ensures !IsWordChar(sep[1..][i]) {
          assert sep[1..][i] == sep[i + 1];
        }
      }
      SkipSeparatorRun(sep[1..], t);
    }
  }

  /** How many of `words` are in `list` (repeats counted). */
  function Occurrences(words: seq<string>, list: seq<string>): (n: nat)
    ensures n <= |words|
  {
    if words == [] then 0
    else Occurrences(words[..|words| - 1], list) + (if words[|words| - 1] in list then 1 else 0)
  }

  /** The unclamped score in tenths: positive minus negative keyword occurrences. */
  function NetScore(words: seq<string>): int
  {
    Occurrences(words, PositiveWords) - Occurrences(words, NegativeWords)
  }

  /** `Math.max(-1, Math.min(1, score))`, in tenths. */
  function Clamp(score: int): (r: int)
    ensures -10 <= r <= 10
    ensures -10 <= score <= 10 ==> r == score
    ensures score > 10 ==> r == 10
    ensures score < -10 ==> r == -10
  {
    if score < -10 then -10 else if score > 10 then 10 else score
  }

  /** The keyword score of `text`, in tenths of a point. */
  method AnalyzeSentiment(text: string) returns (score: int)
    ensures -10 <= score <= 10
    ensures text == [] ==> score == 0
    ensures text != [] ==> score == Clamp(NetScore(Words(Lower(text))))
  {
    if text == [] {
      return 0;
    }
    var words := Words(Lower(text));
    score := 0;
    var i := 0;
    while i < |words|
      invariant 0 <= i <= |words|
      invariant score == NetScore(words[..i])
    {
      var word := words[i];
      NetScoreStep(words, i);
      if word in PositiveWords {
        score := score + 1;
      }
      if word in NegativeWords {
        score := score - 1;
      }
      i := i + 1;
    }
    assert words[..i] == words;
    score := Clamp(score);
  }

  /** One more word moves the score by its own contribution. */
  lemma NetScoreStep(words: seq<string>, i: nat)
    requires i < |words|
    ensures NetScore(words[..i + 1]) == NetScore(words[..i])
      + (if words[i] in PositiveWords then 1 else 0) - (if words[i] in NegativeWords then 1 else 0)
  {
    assert words[..i + 1][..i] == words[..i];
  }

  /** No word is on both lists, so each token moves the score one way at most. */
  lemma KeywordListsDisjoint()
    ensures forall w :: w in PositiveWords ==> w !in NegativeWords
  {
  }

  /** Every keyword is written in lower case. */
  lemma PositiveWordsHaveNoCapitals()
    ensures forall w :: w in PositiveWords ==> NoCapitals(w)
  {
    assert NoCapitals("happy");
    assert NoCapitals("joy");
    assert NoCapitals("excited");
    assert NoCapitals("great");
    assert NoCapitals("good");
    assert NoCapitals("love");
    assert NoCapitals("wonderful");
    assert NoCapitals("amazing");
    assert NoCapitals("excellent");
    assert NoCapitals("fantastic");
    assert NoCapitals("pleased");
    assert NoCapitals("delighted");
    assert NoCapitals("content");
  }

  lemma NegativeWordsHaveNoCapitals()
    ensures forall w :: w in NegativeWords ==> NoCapitals(w)
  {
    assert NoCapitals("sad");
    assert NoCapitals("unhappy");
    assert NoCapitals("depressed");
    assert NoCapitals("angry");
    assert NoCapitals("upset");
    assert NoCapitals("frustrated");
    assert NoCapitals("annoyed");
    assert NoCapitals("disappointed");
    assert NoCapitals("terrible");
    assert NoCapitals("horrible");
    assert NoCapitals("awful");
    assert NoCapitals("miserable");
    assert NoCapitals("stressed");
  }

  /** A keyword in any mix of capitals and small letters is counted once, on its own list. */
  lemma RecasedKeywordCounts(w: string, v: string)
    requires Recased(w, v) && (w in PositiveWords || w in NegativeWords)
    ensures Occurrences([Lower(v)], PositiveWords) == (if w in PositiveWords then 1 else 0)
    ensures Occurrences([Lower(v)], NegativeWords) == (if w in NegativeWords then 1 else 0)
    ensures NetScore([Lower(v)]) == (if w in PositiveWords then 1 else -1)
  {
    PositiveWordsHaveNoCapitals();
    NegativeWordsHaveNoCapitals();
    LowerUndoesRecasing(w, v);
    KeywordListsDisjoint();
    assert [Lower(v)][..0] == [];
  }

  /** Words none of which is listed leave the score at 0. */
  lemma {:induction false} UnlistedWordsScoreZero(words: seq<string>)
    requires forall k :: 0 <= k < |words| ==> words[k] !in PositiveWords && words[k] !in NegativeWords
    ensures NetScore(words) == 0
  {
    if words != [] {
      UnlistedWordsScoreZero(words[..|words| - 1]);
    }
  }
}
