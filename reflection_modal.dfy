/**
 * What the reflection dialog shows for an analysis: nothing without one;
 * otherwise up to three emotion badges (the highest scores, coloured by a
 * fixed table with a fallback, labelled with a rounded percentage), the
 * reflection text, and the suggestions section when there is something
 * to suggest.
 */
module ReflectionModal {
  import opened Wrappers
  import Ranking
  import Analyze

  /**
   * The `reflection` prop. `emotionScores` is the record's entries in
   * insertion order, with `None` for a missing record; `suggestions` is
   * `None` when the field is missing.
   */
  datatype ReflectionData = ReflectionData(
    dominantEmotion: string,
    emotionScores: Option<seq<(string, real)>>,
    reflectionText: string,
    suggestions: Option<seq<string>>)

  /** One emotion badge: the label, its colour class and its percentage. */
  datatype Badge = Badge(emotion: string, colour: string, percent: int)

  /** The dialog's content; `suggestions` is `None` when that section is not rendered. */
  datatype View = View(badges: seq<Badge>, reflectionText: string, suggestions: Option<seq<string>>)

  const EmotionColors: map<string, string> := map[
    "happy" := "bg-secondary",
    "excited" := "bg-accent",
    "neutral" := "bg-muted",
    "anxious" := "bg-primary",
    "sad" := "bg-primary/70",
    "angry" := "bg-destructive"
  ]

  const FallbackColour: string := "bg-muted"

  /** `emotionColors[emotion] || 'bg-muted'`: a falsy lookup (missing or "") falls back. */
  function ColourFor(emotion: string): (colour: string)
    ensures emotion in EmotionColors && EmotionColors[emotion] != "" ==> colour == EmotionColors[emotion]
    ensures emotion !in EmotionColors ==> colour == FallbackColour
    ensures colour != ""
  {
    if emotion in EmotionColors && EmotionColors[emotion] != "" then EmotionColors[emotion] else FallbackColour
  }

  /** Every label the analyzer emits has its own entry in the colour table. */
  lemma EveryEmotionHasAColour(e: Analyze.Emotion)
    ensures Analyze.Label(e) in EmotionColors
    ensures ColourFor(Analyze.Label(e)) == EmotionColors[Analyze.Label(e)]
  {
  }

  /** `Math.round(score * 100)`: round to the nearest integer, halves upwards. */
  function Percent(score: real): (p: int)
    ensures p as real - 0.5 <= score * 100.0 < p as real + 0.5
  {
    (score * 100.0 + 0.5).Floor
  }

  /** A score in [0, 1] is shown as a percentage from 0 to 100. */
  lemma PercentInRange(score: real)
    requires 0.0 <= score <= 1.0
    ensures 0 <= Percent(score) <= 100
  {
  }

  lemma PercentInRangeIf(score: real)
    ensures 0.0 <= score <= 1.0 ==> 0 <= Percent(score) <= 100
  {
    if 0.0 <= score <= 1.0 {
      PercentInRange(score);
    }
  }

  /** `Object.entries(emotion_scores || {}).sort(([, a], [, b]) => b - a).slice(0, 3)`. */
  function TopEmotions(scores: Option<seq<(string, real)>>): (top: seq<(string, real)>)
    ensures scores.None? ==> top == []
    ensures scores.Some? ==> |top| == if |scores.value| < 3 then |scores.value| else 3
    ensures Ranking.NonIncreasing(top)
  {
    Ranking.TopK(if scores.Some? then scores.value else [], 3)
  }

  /**
   * The entries shown are a true top three: taken together with those left
   * out they are exactly the scores, nothing left out scores higher than
   * anything shown, and entries with equal scores keep their order.
   */
  lemma TopEmotionsAreTop(entries: seq<(string, real)>)
    ensures var top := TopEmotions(Some(entries));
      var rest := Ranking.SortDesc(entries)[|top|..];
      && multiset(top) + multiset(rest) == multiset(entries)
      && (forall i, j :: 0 <= i < |top| && 0 <= j < |rest| ==> rest[j].1 <= top[i].1)
      && (forall v :: Ranking.WithScore(top, v) <= Ranking.WithScore(entries, v))
  {
    Ranking.TopKIsTop(entries, 3);
  }

  /** The badge for one shown entry: its label, a colour class and the rounded percentage. */
  function BadgeFor(entry: (string, real)): (b: Badge)
    ensures b.emotion == entry.0 && b.colour != ""
    ensures entry.0 !in EmotionColors ==> b.colour == FallbackColour
    ensures 0.0 <= entry.1 <= 1.0 ==> 0 <= b.percent <= 100
  {
    PercentInRangeIf(entry.1);
    Badge(entry.0, ColourFor(entry.0), Percent(entry.1))
  }

  /** The suggestions section is rendered only for a list that exists and is not empty. */
  function ShownSuggestions(suggestions: Option<seq<string>>): (shown: Option<seq<string>>)
    ensures shown.Some? <==> suggestions.Some? && |suggestions.value| > 0
    ensures shown.Some? ==> shown == suggestions
  {
    if suggestions.Some? && |suggestions.value| > 0 then suggestions else None
  }

  /** The component: nothing without a reflection, the dialog's content with one. */
  function Render(reflection: Option<ReflectionData>): (view: Option<View>)
    ensures view.None? <==> reflection.None?
    ensures view.Some? ==> |view.value.badges| <= 3
    ensures view.Some? ==> view.value.reflectionText == reflection.value.reflectionText
    ensures view.Some? ==> view.value.suggestions == ShownSuggestions(reflection.value.suggestions)
    ensures view.Some? ==> var top := TopEmotions(reflection.value.emotionScores);
      |view.value.badges| == |top| && forall i :: 0 <= i < |top| ==> view.value.badges[i] == BadgeFor(top[i])
  {
    if reflection.None? then
      None
    else
      var r := reflection.value;
      var top := TopEmotions(r.emotionScores);
      Some(View(seq(|top|, i requires 0 <= i < |top| => BadgeFor(top[i])), r.reflectionText,
                ShownSuggestions(r.suggestions)))
  }

  /** The prop built from an analysis: the score record's entries in insertion order. */
  function FromAnalysis(a: Analyze.Analysis): (r: ReflectionData)
    ensures r.emotionScores.Some? && |r.emotionScores.value| == 6
  {
    ReflectionData(Analyze.Label(a.dominantEmotion),
                   Some(Ranking.Relabel(Analyze.Entries(a.emotionScores), Analyze.Label)),
                   a.reflectionText, Some(a.suggestions))
  }

  /**
   * The dialog and the analyzer sort the same entries the same way, so
   * the first badge is always the dominant emotion.
   */
  lemma FirstBadgeIsDominant(s: Analyze.Scores)
    ensures TopEmotions(Some(Ranking.Relabel(Analyze.Entries(s), Analyze.Label)))[0].0
            == Analyze.Label(Analyze.Dominant(s))
  {
    var es := Analyze.Entries(s);
    Ranking.SortDescRelabel(es, Analyze.Label);
  }

  /** For a whole analysis: three badges, the first one the dominant emotion, and the suggestions shown. */
  lemma AnalysisView(text: string)
    ensures var a := Analyze.Analyze(text);
      var view := Render(Some(FromAnalysis(a)));
      && view.Some?
      && |view.value.badges| == 3
      && view.value.badges[0].emotion == Analyze.Label(a.dominantEmotion)
      && view.value.suggestions == Some(a.suggestions)
  {
    var a := Analyze.Analyze(text);
    Analyze.DominantUnique(a.emotionScores, a.dominantEmotion);
    FirstBadgeIsDominant(a.emotionScores);
  }
}
