/**
 * The journal text field: its validity and word count, derived from the
 * current text, and the handlers that submit the text, replace it with a
 * voice transcript, toggle the voice recorder and append a mood tag.
 */
module JournalInput {
  import opened Wrappers
  import opened Text

  /** `text.trim().length > 0`: the text has a character that is not white space. */
  function IsValid(text: string): (valid: bool)
    ensures valid <==> !AllWhitespace(text)
  {
    TrimEmptyIff(text);
    |Trim(text)| > 0
  }

  /**
   * `text.trim().split(/\s+/).filter(Boolean).length`: the number of words
   * of the text. Trimming first makes no difference, and the count is 0
   * exactly when the text is not valid.
   */
  function WordCount(text: string): (n: nat)
    ensures n == |Words(text)|
    ensures n == 0 <==> !IsValid(text)
  {
    WordsTrim(text);
    WordsEmptyIff(text);
    |Words(Trim(text))|
  }

  /** `prev ? `${prev} #${mood}` : `#${mood}``. */
  function WithMoodTag(prev: string, mood: string): (r: string)
    ensures prev <= r
    ensures |r| == |prev| + (if prev == "" then 1 else 2) + |mood|
    ensures r[|r| - |mood| - 1..] == "#" + mood
    ensures prev != "" ==> r[|prev|] == ' '
  {
    if prev != "" then prev + " #" + mood else "#" + mood
  }

  /** The labels of the mood badges, in display order. */
  const MoodTags: seq<string> := ["Happy", "Anxious", "Sad", "Excited", "Calm", "Overwhelmed"]

  /** The tag is appended: an empty text becomes `#mood`, any other text is kept as a prefix. */
  lemma MoodTagAppends(prev: string, mood: string)
    ensures prev == "" ==> WithMoodTag(prev, mood) == "#" + mood
    ensures prev != "" ==> WithMoodTag(prev, mood) == prev + [' '] + "#" + mood
    ensures prev <= WithMoodTag(prev, mood)
  {
  }

  /** A tag without white space adds exactly one word, `#mood`, after the old words. */
  lemma MoodTagWords(prev: string, mood: string)
    requires NoWhitespace(mood)
    ensures Words(WithMoodTag(prev, mood)) == Words(prev) + ["#" + mood]
  {
    var tag := "#" + mood;
    assert NoWhitespace(tag) by {
      forall i | 0 <= i < |tag| ensures !IsWhitespace(tag[i]) {
        if i > 0 { assert tag[i] == mood[i - 1]; }
      }
    }
    SplitSolid(tag);
    if prev == "" {
      assert Words(prev) == [];
    } else {
      assert WithMoodTag(prev, mood) == prev + [' '] + tag;
      SplitAround(prev, ' ', tag);
      NonEmptyAppend(SplitOnWhitespace(prev), [tag]);
    }
  }

  /** So the word count goes up by one and the text is valid afterwards. */
  lemma MoodTagCounts(prev: string, mood: string)
    requires NoWhitespace(mood)
    ensures WordCount(WithMoodTag(prev, mood)) == WordCount(prev) + 1
    ensures IsValid(WithMoodTag(prev, mood))
  {
    MoodTagWords(prev, mood);
  }

  /** The word-count fact in the form the handler needs it. */
  lemma MoodTagCountsIf(prev: string, mood: string)
    ensures NoWhitespace(mood) ==> WordCount(WithMoodTag(prev, mood)) == WordCount(prev) + 1
  {
    if NoWhitespace(mood) {
      MoodTagCounts(prev, mood);
    }
  }

  /** Every badge label is a single word. */
  lemma MoodTagsAreWords(i: nat)
    requires i < |MoodTags|
    ensures MoodTags[i] != "" && NoWhitespace(MoodTags[i])
  {
  }

  /** The state of the journal input component. */
  class JournalInput {
    /** The contents of the text area. */
    var text: string
    /** Whether the voice recorder is shown. */
    var showVoice: bool

    /** `useState('')` and `useState(false)`. */
    constructor ()
      ensures text == "" && !showVoice
    {
      text := "";
      showVoice := false;
    }

    /**
     * `handleSubmit`: the text, untrimmed, is handed to `onSubmit` when it
     * is valid and no analysis is in progress; otherwise nothing happens.
     */
    method HandleSubmit(loading: bool) returns (submitted: Option<string>)
      ensures submitted.Some? <==> !AllWhitespace(text) && !loading
      ensures submitted.Some? ==> submitted.value == text
    {
      if IsValid(text) && !loading {
        submitted := Some(text);
      } else {
        submitted := None;
      }
    }

    /** The text area's `onChange`: the text becomes what was typed. */
    method SetText(value: string)
      modifies this`text
      ensures text == value
    {
      text := value;
    }

    /** `handleVoiceTranscript`: the transcript replaces the text and the recorder closes. */
    method HandleVoiceTranscript(transcript: string)
      modifies this
      ensures text == transcript && !showVoice
    {
      text := transcript;
      showVoice := false;
    }

    /** The voice button: shows or hides the recorder. */
    method ToggleVoice()
      modifies this`showVoice
      ensures showVoice == !old(showVoice)
    {
      showVoice := !showVoice;
    }

    /** `addMoodTag`: appends `#mood`, keeping the old text as a prefix. */
    method AddMoodTag(mood: string)
      modifies this`text
      ensures text == WithMoodTag(old(text), mood)
      ensures old(text) <= text
      ensures NoWhitespace(mood) ==> WordCount(text) == WordCount(old(text)) + 1
    {
      var prev := text;
      MoodTagAppends(prev, mood);
      MoodTagCountsIf(prev, mood);
      text := WithMoodTag(prev, mood);
    }
  }
}
