/**
 * The keyword-heuristic emotion classifier behind the `analyze` edge
 * function: it checks the `text` field of the request body, counts the
 * distinct keywords of four fixed lexicons that occur in the lower-cased
 * text, turns the counts into six clamped scores, picks the dominant
 * emotion and attaches the fixed reflection, suggestions and an empty
 * safety block for it.
 */
module Analyze {
  import opened Wrappers
  import opened Text
  import Ranking

  // ---------------------------------------------------------------------
  // Emotions and scores
  // ---------------------------------------------------------------------

  datatype Emotion = Happy | Excited | Neutral | Anxious | Sad | Angry

  /** The key the emotion has in the JSON result. */
  function Label(e: Emotion): string {
    match e
    case Happy => "happy"
    case Excited => "excited"
    case Neutral => "neutral"
    case Anxious => "anxious"
    case Sad => "sad"
    case Angry => "angry"
  }

  /** The position of the emotion in the score record's insertion order. */
  function Rank(e: Emotion): (k: nat)
    ensures k < 6
  {
    match e
    case Happy => 0
    case Excited => 1
    case Neutral => 2
    case Anxious => 3
    case Sad => 4
    case Angry => 5
  }

  /** The `emotion_scores` record. */
  datatype Scores = Scores(happy: real, excited: real, neutral: real, anxious: real, sad: real, angry: real)

  function ScoreOf(s: Scores, e: Emotion): real {
    match e
    case Happy => s.happy
    case Excited => s.excited
    case Neutral => s.neutral
    case Anxious => s.anxious
    case Sad => s.sad
    case Angry => s.angry
  }

  /** Every score lies in the closed interval [0, 1]. */
  ghost predicate InUnitInterval(s: Scores) {
    forall e :: 0.0 <= ScoreOf(s, e) <= 1.0
  }

  /** `Object.entries(emotions)`: the six scores in insertion order. */
  function Entries(s: Scores): (es: seq<(Emotion, real)>)
    ensures |es| == 6
    ensures forall e :: es[Rank(e)] == (e, ScoreOf(s, e))
    ensures forall i :: 0 <= i < 6 ==> Rank(es[i].0) == i
  {
    [(Happy, s.happy), (Excited, s.excited), (Neutral, s.neutral),
     (Anxious, s.anxious), (Sad, s.sad), (Angry, s.angry)]
  }

  /**
   * `e` has the largest score, and every emotion before it in insertion
   * order has a strictly smaller one: ties go to the earliest label.
   */
  ghost predicate IsDominant(s: Scores, e: Emotion) {
    && (forall o :: ScoreOf(s, o) <= ScoreOf(s, e))
    && (forall o :: Rank(o) < Rank(e) ==> ScoreOf(s, o) < ScoreOf(s, e))
  }

  /**
   * `Object.entries(emotions).sort(([, a], [, b]) => b - a)[0][0]`: the
   * first label of the stable descending sort of the scores.
   */
  function Dominant(s: Scores): (d: Emotion)
    ensures IsDominant(s, d)
  {
    SortedEntriesHead(s, Entries(s));
    Ranking.SortDesc(Entries(s))[0].0
  }

  /** The same fact for any sequence laid out like `Entries(s)`. */
  lemma SortedEntriesHead(s: Scores, es: seq<(Emotion, real)>)
    requires |es| == 6
    requires forall e :: es[Rank(e)] == (e, ScoreOf(s, e))
    requires forall i :: 0 <= i < 6 ==> Rank(es[i].0) == i
    ensures IsDominant(s, Ranking.SortDesc(es)[0].0)
  {
    var k := Ranking.FirstMaxIndex(es);
    Ranking.SortHeadIsFirstMax(es);
    assert Rank(es[k].0) == k;
  }

  /** The dominant emotion is the only one that meets `IsDominant`. */
  lemma DominantUnique(s: Scores, e: Emotion)
    ensures IsDominant(s, e) <==> e == Dominant(s)
  {
    var d := Dominant(s);
    IsDominantUnique(s, d, e);
  }

  /** Two emotions that both meet `IsDominant` are the same emotion. */
  lemma IsDominantUnique(s: Scores, d: Emotion, e: Emotion)
    requires IsDominant(s, d)
    ensures IsDominant(s, e) <==> e == d
  {
    if IsDominant(s, e) {
      assert Rank(e) < Rank(d) ==> ScoreOf(s, e) < ScoreOf(s, d);
      assert Rank(d) < Rank(e) ==> ScoreOf(s, d) < ScoreOf(s, e);
      assert Rank(e) == Rank(d);
      RankInjective();
    }
  }

  /** Different emotions have different positions. */
  lemma RankInjective()
    ensures forall a, b :: Rank(a) == Rank(b) ==> a == b
  {
  }

  /** When excited never beats happy, excited cannot be dominant: happy comes first. */
  lemma ExcitedNotDominant(s: Scores)
    requires s.excited <= s.happy
    ensures Dominant(s) != Excited
  {
  }

  // ---------------------------------------------------------------------
  // Lexicons and keyword counting
  // ---------------------------------------------------------------------

  const PositiveWords: seq<string> :=
    ["happy", "joy", "excited", "great", "amazing", "wonderful", "love", "beautiful", "perfect", "blessed", "grateful"]
  const AnxiousWords: seq<string> :=
    ["worried", "anxious", "nervous", "stress", "overwhelm", "pressure", "fear", "scared"]
  const SadWords: seq<string> :=
    ["sad", "depressed", "lonely", "hurt", "pain", "cry", "miss", "loss", "empty"]
  const AngryWords: seq<string> :=
    ["angry", "frustrated", "annoyed", "mad", "furious", "irritated", "hate"]

  /** The fixed denominators; the positive list has 11 words but is divided by 10. */
  const PositiveDenominator: real := 10.0
  const AnxiousDenominator: real := 8.0
  const SadDenominator: real := 9.0
  const AngryDenominator: real := 7.0

  ghost predicate Distinct<T>(s: seq<T>) {
    forall i, j :: 0 <= i < j < |s| ==> s[i] != s[j]
  }

  lemma LexiconsDistinct()
    ensures Distinct(PositiveWords) && Distinct(AnxiousWords) && Distinct(SadWords) && Distinct(AngryWords)
  {
  }

  /** `w` is on one of the four lists. */
  ghost predicate IsKeyword(w: string) {
    w in PositiveWords || w in AnxiousWords || w in SadWords || w in AngryWords
  }

  /** Every keyword starts with a lower-case ASCII letter. */
  lemma LexiconsLowercase()
    ensures forall w :: IsKeyword(w) ==> w != [] && 'a' <= w[0] <= 'z'
  {
  }

  /** `words.filter(w => text.includes(w))`. */
  function MatchingWords(words: seq<string>, text: string): (found: seq<string>)
    ensures |found| <= |words|
    ensures forall w :: w in found <==> w in words && Contains(text, w)
    decreases |words|
  {
    if words == [] then []
    else if Contains(text, words[0]) then [words[0]] + MatchingWords(words[1..], text)
    else MatchingWords(words[1..], text)
  }

  /** The set of keywords of the list that occur somewhere in the text. */
  ghost function KeywordsFound(words: seq<string>, text: string): set<string> {
    set w | w in words && Contains(text, w)
  }

  /** The keywords found in a list, from its head and from its tail. */
  lemma KeywordsFoundCons(words: seq<string>, text: string)
    requires words != []
    ensures KeywordsFound(words, text)
      == (if Contains(text, words[0]) then {words[0]} else {}) + KeywordsFound(words[1..], text)
  {
    assert forall w :: w in words <==> w == words[0] || w in words[1..];
  }

  /** Each keyword counts once, however often it occurs. */
  lemma {:induction false} MatchCountIsKeywordsFound(words: seq<string>, text: string)
    requires Distinct(words)
    ensures |MatchingWords(words, text)| == |KeywordsFound(words, text)|
    decreases |words|
  {
    if words != [] {
      var tail := words[1..];
      assert Distinct(tail) by {
        forall i, j | 0 <= i < j < |tail| ensures tail[i] != tail[j] {
          assert tail[i] == words[i + 1] && tail[j] == words[j + 1];
        }
      }
      MatchCountIsKeywordsFound(tail, text);
      KeywordsFoundCons(words, text);
      var rest := KeywordsFound(tail, text);
      assert words[0] !in tail by {
        forall j | 0 <= j < |tail| ensures tail[j] != words[0] {
          assert tail[j] == words[j + 1];
        }
      }
      assert words[0] !in rest;
      if Contains(text, words[0]) {
        assert MatchingWords(words, text) == [words[0]] + MatchingWords(tail, text);
        assert |{words[0]} + rest| == |rest| + 1;
      } else {
        assert MatchingWords(words, text) == MatchingWords(tail, text);
      }
    }
  }

  /** The count depends only on which keywords occur, not where or how often. */
  lemma {:induction false} MatchCountDependsOnlyOnKeywordsFound(words: seq<string>, t1: string, t2: string)
    requires forall w :: w in words ==> (Contains(t1, w) <==> Contains(t2, w))
    ensures MatchingWords(words, t1) == MatchingWords(words, t2)
    decreases |words|
  {
    if words != [] {
      MatchCountDependsOnlyOnKeywordsFound(words[1..], t1, t2);
    }
  }

  /** The count reaches the list's length exactly when every keyword of the list occurs. */
  lemma {:induction false} MatchCountFullIff(words: seq<string>, text: string)
    ensures |MatchingWords(words, text)| == |words| <==> forall w :: w in words ==> Contains(text, w)
    decreases |words|
  {
    if words != [] {
      MatchCountFullIff(words[1..], text);
      assert forall w :: w in words <==> w == words[0] || w in words[1..];
      if Contains(text, words[0]) {
        assert MatchingWords(words, text) == [words[0]] + MatchingWords(words[1..], text);
      } else {
        assert MatchingWords(words, text) == MatchingWords(words[1..], text);
        assert |MatchingWords(words, text)| < |words|;
        assert words[0] in words;
      }
    }
  }

  /**
   * The test is a raw substring search, so a keyword inside a longer word
   * still counts: "whatever" contains the angry keyword "hate".
   */
  lemma KeywordInsideWord()
    ensures "hate" in KeywordsFound(AngryWords, "whatever")
  {
    assert OccursAt("whatever", "hate", 1);
  }

  /** How many distinct keywords of each list occur in the lower-cased text. */
  datatype Counts = Counts(positive: nat, anxious: nat, sad: nat, angry: nat)

  function KeywordCounts(lower: string): (c: Counts)
    ensures c.positive == |KeywordsFound(PositiveWords, lower)| <= |PositiveWords|
    ensures c.anxious == |KeywordsFound(AnxiousWords, lower)| <= |AnxiousWords|
    ensures c.sad == |KeywordsFound(SadWords, lower)| <= |SadWords|
    ensures c.angry == |KeywordsFound(AngryWords, lower)| <= |AngryWords|
  {
    LexiconsDistinct();
    MatchCountIsKeywordsFound(PositiveWords, lower);
    MatchCountIsKeywordsFound(AnxiousWords, lower);
    MatchCountIsKeywordsFound(SadWords, lower);
    MatchCountIsKeywordsFound(AngryWords, lower);
    Counts(|MatchingWords(PositiveWords, lower)|, |MatchingWords(AnxiousWords, lower)|,
           |MatchingWords(SadWords, lower)|, |MatchingWords(AngryWords, lower)|)
  }

  // ---------------------------------------------------------------------
  // Score derivation
  // ---------------------------------------------------------------------

  /** The four normalised but unclamped category scores. */
  datatype RawScores = RawScores(happy: real, anxious: real, sad: real, angry: real)

  function Normalize(c: Counts): (raw: RawScores)
    ensures raw.happy >= 0.0 && raw.anxious >= 0.0 && raw.sad >= 0.0 && raw.angry >= 0.0
  {
    RawScores(c.positive as real / PositiveDenominator, c.anxious as real / AnxiousDenominator,
              c.sad as real / SadDenominator, c.angry as real / AngryDenominator)
  }

  function Min(a: real, b: real): real { if a <= b then a else b }
  function Max(a: real, b: real): real { if a >= b then a else b }

  /**
   * The six emitted scores. Each of the four categories is clamped at 1,
   * excited is 0.8 of the raw happy score clamped at 1, and neutral is what
   * the raw (unclamped) scores leave of 1, floored at 0.
   */
  function Derive(raw: RawScores): (s: Scores)
    requires raw.happy >= 0.0 && raw.anxious >= 0.0 && raw.sad >= 0.0 && raw.angry >= 0.0
    ensures InUnitInterval(s)
    ensures s.excited <= s.happy
    ensures raw.happy + raw.anxious + raw.sad + raw.angry <= 1.0 ==>
              s.neutral + raw.happy + raw.anxious + raw.sad + raw.angry == 1.0
    ensures raw.happy + raw.anxious + raw.sad + raw.angry >= 1.0 ==> s.neutral == 0.0
  {
    var neutral := Max(0.0, 1.0 - (raw.happy + raw.anxious + raw.sad + raw.angry));
    Scores(Min(raw.happy, 1.0), Min(raw.happy * 0.8, 1.0), Min(neutral, 1.0),
           Min(raw.anxious, 1.0), Min(raw.sad, 1.0), Min(raw.angry, 1.0))
  }

  /**
   * Neutral is computed from the raw happy score, but it would come out the
   * same from the clamped scores: once any raw score exceeds 1, both are 0.
   */
  lemma NeutralFromEmittedScores(raw: RawScores)
    requires raw.happy >= 0.0 && raw.anxious >= 0.0 && raw.sad >= 0.0 && raw.angry >= 0.0
    ensures var s := Derive(raw);
      s.neutral == Max(0.0, 1.0 - (s.happy + s.anxious + s.sad + s.angry))
  {
  }

  /**
   * Only the happy score can exceed 1 before clamping, and only by 0.1,
   * when all eleven positive keywords occur.
   */
  lemma RawScoreBounds(lower: string)
    ensures var raw := Normalize(KeywordCounts(lower));
      && raw.anxious <= 1.0 && raw.sad <= 1.0 && raw.angry <= 1.0 && raw.happy <= 1.1
      && (raw.happy > 1.0 <==> forall w :: w in PositiveWords ==> Contains(lower, w))
  {
    LexiconsDistinct();
    MatchCountIsKeywordsFound(PositiveWords, lower);
    MatchCountFullIff(PositiveWords, lower);
  }

  // ---------------------------------------------------------------------
  // Reflections, suggestions and the result
  // ---------------------------------------------------------------------

  const Reflections: map<Emotion, string> := map[
    Happy := "It's wonderful to see you feeling positive! Keep embracing these moments of joy.",
    Excited := "Your enthusiasm is contagious! It's great to see you looking forward to things.",
    Neutral := "Thank you for taking time to reflect. Sometimes processing our thoughts helps us understand ourselves better.",
    Anxious := "I hear that you're feeling stressed. Remember, it's okay to feel this way, and these feelings will pass.",
    Sad := "I'm here with you in this difficult moment. Your feelings are valid, and it's okay to take time to process them.",
    Angry := "It sounds like you're going through something frustrating. Acknowledging these feelings is an important step."
  ]

  const SuggestionsByEmotion: map<Emotion, seq<string>> := map[
    Happy := ["Capture this moment with a photo or note", "Share your positivity with someone you care about"],
    Excited := ["Channel this energy into a creative project", "Plan something you're looking forward to"],
    Neutral := ["Try a mindfulness exercise", "Take a short walk outside"],
    Anxious := ["Practice deep breathing for 5 minutes", "Write down what's worrying you", "Try progressive muscle relaxation"],
    Sad := ["Reach out to a trusted friend", "Do something nurturing for yourself", "Allow yourself to feel without judgment"],
    Angry := ["Take a break and step away from the situation", "Try physical activity to release tension", "Write freely about what upset you"]
  ]

  /** `suggestionsByEmotion[key] || suggestionsByEmotion.neutral`. */
  function SuggestionsFor(key: Emotion): (r: seq<string>)
    ensures key in SuggestionsByEmotion ==> r == SuggestionsByEmotion[key]
    ensures key !in SuggestionsByEmotion ==> r == SuggestionsByEmotion[Neutral]
  {
    if key in SuggestionsByEmotion then SuggestionsByEmotion[key] else SuggestionsByEmotion[Neutral]
  }

  /**
   * Both tables cover every emotion, so the neutral fallback is never used;
   * the first three emotions get two suggestions, the other three get three.
   */
  lemma TablesCoverEveryEmotion(e: Emotion)
    ensures e in Reflections && e in SuggestionsByEmotion
    ensures SuggestionsFor(e) == SuggestionsByEmotion[e]
    ensures |SuggestionsFor(e)| == if Rank(e) < 3 then 2 else 3
  {
  }

  /** The safety block; the heuristic path never flags anything. */
  datatype Safety = Safety(flags: seq<string>, recommendedAction: Option<string>)

  datatype Analysis = Analysis(
    dominantEmotion: Emotion,
    emotionScores: Scores,
    reflectionText: string,
    suggestions: seq<string>,
    safety: Safety)

  /** The six scores of a text: the derived scores of its lower-cased keyword counts. */
  function EmotionScores(text: string): (s: Scores)
    ensures InUnitInterval(s)
    ensures s.excited <= s.happy
  {
    Derive(Normalize(KeywordCounts(ToLower(text))))
  }

  /** The classification of a text that passed the input check. */
  function Analyze(text: string): (a: Analysis)
    ensures a.emotionScores == EmotionScores(text)
    ensures IsDominant(a.emotionScores, a.dominantEmotion)
    ensures a.dominantEmotion != Excited
    ensures a.dominantEmotion in Reflections && a.reflectionText == Reflections[a.dominantEmotion]
    ensures a.dominantEmotion in SuggestionsByEmotion && a.suggestions == SuggestionsByEmotion[a.dominantEmotion]
    ensures 2 <= |a.suggestions| <= 3
    ensures a.safety == Safety([], None)
  {
    var scores := EmotionScores(text);
    var d := Dominant(scores);
    ExcitedNotDominant(scores);
    TablesCoverEveryEmotion(d);
    Analysis(d, scores, Reflections[d], SuggestionsFor(d), Safety([], None))
  }

  /** Upper and lower case make no difference to the classification. */
  lemma AnalyzeIgnoresCase(text: string)
    ensures Analyze(ToLower(text)) == Analyze(text)
  {
    ToLowerIdempotent(text);
  }

  /** Without a single keyword every count is zero. */
  lemma NoKeywordsNoCounts(lower: string)
    requires forall w :: IsKeyword(w) ==> !Contains(lower, w)
    ensures KeywordCounts(lower) == Counts(0, 0, 0, 0)
  {
    assert KeywordsFound(PositiveWords, lower) == {};
    assert KeywordsFound(AnxiousWords, lower) == {};
    assert KeywordsFound(SadWords, lower) == {};
    assert KeywordsFound(AngryWords, lower) == {};
  }

  /** Zero counts give neutral 1 and every other score 0. */
  lemma ZeroCountsAreNeutral(c: Counts)
    requires c == Counts(0, 0, 0, 0)
    ensures Derive(Normalize(c)) == Scores(0.0, 0.0, 1.0, 0.0, 0.0, 0.0)
  {
  }

  /** A score set where neutral alone is positive has neutral dominant. */
  lemma OnlyNeutralIsDominant(s: Scores)
    requires s.neutral > 0.0
    requires s.happy == 0.0 && s.excited == 0.0 && s.anxious == 0.0 && s.sad == 0.0 && s.angry == 0.0
    ensures Dominant(s) == Neutral
  {
    var d := Dominant(s);
    assert IsDominant(s, Neutral);
    IsDominantUnique(s, d, Neutral);
  }

  /** With no keyword at all, neutral is 1, everything else 0, and neutral is dominant. */
  lemma NoKeywordsMeansNeutral(text: string)
    requires forall w :: IsKeyword(w) ==> !Contains(ToLower(text), w)
    ensures Analyze(text).emotionScores == Scores(0.0, 0.0, 1.0, 0.0, 0.0, 0.0)
    ensures Analyze(text).dominantEmotion == Neutral
  {
    var lower := ToLower(text);
    NoKeywordsNoCounts(lower);
    ZeroCountsAreNeutral(KeywordCounts(lower));
    OnlyNeutralIsDominant(Analyze(text).emotionScores);
  }

  // ---------------------------------------------------------------------
  // The request body check and the whole handler
  // ---------------------------------------------------------------------

  /** A JSON value as `req.json()` yields it. */
  datatype Json =
    | JNull
    | JBool(b: bool)
    | JNumber(n: real)
    | JString(s: string)
    | JArray(items: seq<Json>)
    | JObject(fields: seq<(string, Json)>)

  /**
   * JavaScript truthiness of the `text` field; `None` is `undefined`. The
   * falsy values are `undefined`, `null`, `false`, `0` and `""`.
   */
  predicate Truthy(v: Option<Json>): (t: bool)
    ensures !t <==> v.None? || v == Some(JNull) || v == Some(JBool(false)) || v == Some(JNumber(0.0)) || v == Some(JString(""))
  {
    match v
    case None => false
    case Some(JNull) => false
    case Some(JBool(b)) => b
    case Some(JNumber(n)) => n != 0.0
    case Some(JString(s)) => s != ""
    case Some(JArray(_)) => true
    case Some(JObject(_)) => true
  }

  const TextRequired: string := "Text is required"

  /** The message of the TypeError `text?.substring(0, 100)` throws when `text` is not a string. */
  const SubstringNotAFunction: string := "text?.substring is not a function"

  /**
   * `text?.substring(0, 100)`, logged before the check: `undefined` and
   * `null` short-circuit to `undefined`, a string gives its first 100
   * UTF-16 code units, and any other JSON value has no `substring` method,
   * so the call throws.
   */
  function LogPreview(text: Option<Json>): (r: Result<Option<string>>)
    ensures r.Failure? <==> text.Some? && !text.value.JNull? && !text.value.JString?
    ensures r.Failure? ==> r.error == SubstringNotAFunction
    ensures text.None? || text == Some(JNull) ==> r == Success(None)
    ensures text.Some? && text.value.JString? ==>
              && r.Success? && r.value.Some?
              && r.value.value <= text.value.s
              && Utf16Length(r.value.value) <= 100
              && (r.value.value != text.value.s ==> Utf16Length(text.value.s[..|r.value.value| + 1]) > 100)
  {
    match text
    case None => Success(None)
    case Some(JNull) => Success(None)
    case Some(JString(s)) => Success(Some(Utf16Prefix(s, 100)))
    case Some(_) => Failure(SubstringNotAFunction)
  }

  /** `if (!text || typeof text !== 'string') throw new Error('Text is required')`. */
  function CheckText(text: Option<Json>): (r: Result<string>)
    ensures r.Success? <==> text.Some? && text.value.JString? && text.value.s != ""
    ensures r.Success? ==> text == Some(JString(r.value))
    ensures r.Failure? ==> r.error == TextRequired
  {
    if !Truthy(text) || !text.value.JString? then Failure(TextRequired) else Success(text.value.s)
  }

  /**
   * The analyze handler without its HTTP plumbing: the `text` field of the
   * request body in, the analysis or the message of the thrown error out.
   * A value other than a string, `null` or a missing field fails already at
   * the log line, with the TypeError's message; a missing, `null` or empty
   * text fails the check.
   */
  function Classify(text: Option<Json>): (r: Result<Analysis>)
    ensures r.Success? <==> text.Some? && text.value.JString? && text.value.s != ""
    ensures r.Success? ==> r.value == Analyze(text.value.s)
    ensures text.Some? && !text.value.JNull? && !text.value.JString? ==> r == Failure(SubstringNotAFunction)
    ensures text.None? || text == Some(JNull) || text == Some(JString("")) ==> r == Failure(TextRequired)
  {
    match LogPreview(text)
    case Failure(e) => Failure(e)
    case Success(_) =>
      match CheckText(text)
      case Failure(e) => Failure(e)
      case Success(s) => Success(Analyze(s))
  }

  /** A falsy value that is not a string, such as `0` or `false`, still fails at the log line. */
  lemma FalsyNonStringFailsAtLog(text: Option<Json>)
    requires text == Some(JNumber(0.0)) || text == Some(JBool(false))
    ensures !Truthy(text) && Classify(text) == Failure(SubstringNotAFunction)
  {
  }

  lemma LetterIsNotWhitespace(c: char)
    requires 'a' <= c <= 'z'
    ensures !IsWhitespace(c)
  {
  }

  /** A text of white space alone contains no word that starts with a letter. */
  lemma NoWordInWhitespace(text: string, w: string)
    requires AllWhitespace(text)
    requires w != [] && 'a' <= w[0] <= 'z'
    ensures !Contains(text, w)
  {
    LetterIsNotWhitespace(w[0]);
  }

  /** So it contains no keyword. */
  lemma WhitespaceHasNoKeywords(text: string)
    requires AllWhitespace(text)
    ensures forall w :: IsKeyword(w) ==> !Contains(text, w)
  {
    LexiconsLowercase();
    forall w | IsKeyword(w) ensures !Contains(text, w) {
      NoWordInWhitespace(text, w);
    }
  }

  /**
   * There is no trim: a non-empty text of white space alone passes the
   * check, and, finding no keyword, is classified as neutral.
   */
  lemma WhitespaceOnlyIsNeutral(s: string)
    requires s != [] && AllWhitespace(s)
    ensures Classify(Some(JString(s))).Success?
    ensures Classify(Some(JString(s))).value.dominantEmotion == Neutral
  {
    var lower := ToLower(s);
    LowerWhitespace(s);
    WhitespaceHasNoKeywords(lower);
    NoKeywordsMeansNeutral(s);
    ClassifyText(s);
  }

  /** Lower-casing leaves white space alone. */
  lemma LowerWhitespace(s: string)
    requires AllWhitespace(s)
    ensures AllWhitespace(ToLower(s))
  {
  }

  /** A non-empty string passes the check and is analysed. */
  lemma ClassifyText(s: string)
    requires s != []
    ensures Classify(Some(JString(s))) == Success(Analyze(s))
  {
  }
}
