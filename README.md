# mood-whisper-lens: the emotion classifier and the client-side rules around it

This project models in Dafny the decision logic of mood-whisper-lens, a journaling app. The user writes a journal entry. An `analyze` edge function classifies the entry's emotion with a keyword heuristic. A dialog then shows the result.

The model covers four parts:

- **The `analyze` classifier** (module `Analyze`).
  - It checks the request's `text` field.
  - It lower-cases the text.
  - It counts how many distinct keywords of four fixed lexicons occur in the text as raw substrings.
  - It divides those counts by fixed denominators (10, 8, 9, 7) and derives six clamped scores. `neutral` is computed from the unclamped sum.
  - It picks the dominant emotion: the head of a stable descending sort of the scores in insertion order.
  - It attaches that emotion's reflection sentence, its suggestion list, and a constant, empty safety block.
- **The journal input** (module `JournalInput`). It is a class holding the `text` and `showVoice` state, plus the pure rules derived from that state: validity (trimmed text is not empty) and the word count. Its methods are the handlers:
  - submit, forwarding the untrimmed text only when it is valid and not loading;
  - typing;
  - voice transcript replacement;
  - the voice toggle;
  - mood-tag appending.
- **The reflection dialog** (module `ReflectionModal`):
  - nothing is rendered without a reflection;
  - up to three emotion badges are shown, by the same stable descending sort;
  - the colour table with its `bg-muted` fallback;
  - the rounded percentage;
  - the suggestions section appears only for a non-empty list.
- **The sign-up and sign-in guards** (module `Auth`). They give the error message or the call that goes to the auth provider.

Shared building blocks:

- `Text` holds the JavaScript string primitives:
  - white space as `trim()` and `\s` see it;
  - ASCII `toLowerCase`;
  - `includes`;
  - `trim`;
  - `split(/\s+/)` followed by `filter(Boolean)`;
  - UTF-16 `.length`.
- `Ranking` holds the one stable descending sort (an insertion sort). It serves both the classifier and the dialog.
- `Wrappers` holds `Option` and `Result`.

Scores are exact reals.

The input check (`supabase/functions/analyze/index.ts:21`) does not trim. A non-empty text of white space alone passes the check and is classified as neutral (`Analyze.WhitespaceOnlyIsNeutral`). The model follows the code here.

## Model

| member | source | states |
|---|---|---|
| Text.ToLower | supabase/functions/analyze/index.ts:33 | same length; every character is its ASCII lower-case form; no upper-case letter remains |
| Text.LowerChar | supabase/functions/analyze/index.ts:33 | upper-case ASCII letters move down by 32, everything else is unchanged |
| Text.ToLowerIdempotent | supabase/functions/analyze/index.ts:33 | lower-casing twice equals lower-casing once |
| Text.Contains | supabase/functions/analyze/index.ts:35-38 | `includes` is true exactly when the word occurs at some position of the text |
| Text.ContainsInContext | supabase/functions/analyze/index.ts:35-38 | a word found in a piece of text is found in any text that contains that piece |
| Text.TrimStart | src/components/JournalInput.tsx:27-28 | the result is a suffix; everything dropped is white space; it does not start with white space |
| Text.TrimEnd | src/components/JournalInput.tsx:27-28 | the result is a prefix; everything dropped is white space; it does not end with white space |
| Text.Trim | src/components/JournalInput.tsx:27-28 | the trimmed text is no longer than the text and neither starts nor ends with white space |
| Text.TrimIsSlice | src/components/JournalInput.tsx:27-28 | the trimmed text is the slice of the text that starts after its leading white space, with only white space after it |
| Text.SliceInWhitespace | src/components/JournalInput.tsx:27-28 | a prefix of a suffix, cut off only at white space, is such a padded slice |
| Text.TrimEmptyIff | src/components/JournalInput.tsx:28 | trimming leaves nothing exactly when every character is white space |
| Text.SplitOnWhitespace | src/components/JournalInput.tsx:27 | at least one piece, and no piece contains white space |
| Text.Prepend | src/components/JournalInput.tsx:27 | one more leading character still leaves at least one piece |
| Text.PrependAppend | src/components/JournalInput.tsx:27 | a leading character only changes the first pieces |
| Text.NonEmpty | src/components/JournalInput.tsx:27 | `filter(Boolean)` keeps exactly the non-empty pieces: as a multiset, the pieces with every `""` removed |
| Text.Words | src/components/JournalInput.tsx:27 | every word is non-empty and contains no white space |
| Text.NonEmptyAppend | src/components/JournalInput.tsx:27 | filtering distributes over concatenation |
| Text.SplitAround | src/components/JournalInput.tsx:27 | splitting at one white-space character splits the two sides independently |
| Text.SplitSolid | src/components/JournalInput.tsx:27 | a string without white space is one piece |
| Text.WordsTrimStart | src/components/JournalInput.tsx:27 | leading white space adds no word |
| Text.WordsTrimEnd | src/components/JournalInput.tsx:27 | trailing white space adds no word |
| Text.WordsSnocWhitespace | src/components/JournalInput.tsx:27 | one trailing white-space character adds no word |
| Text.WordsTrim | src/components/JournalInput.tsx:27 | trimming before splitting does not change the words |
| Text.WordsEmptyIff | src/components/JournalInput.tsx:27-28 | there are no words exactly when the text is all white space |
| Text.Utf16Length | src/pages/Auth.tsx:56 | `.length` lies between the number of characters and twice that |
| Text.Utf16Prefix | supabase/functions/analyze/index.ts:19 | `substring(0, n)`: a prefix of at most n UTF-16 code units, and the longest one: one more character would exceed n |
| Text.Utf16LengthBmp | src/pages/Auth.tsx:56 | without characters above U+FFFF, `.length` is the character count |
| Text.Utf16PrefixBmp | supabase/functions/analyze/index.ts:19 | without characters above U+FFFF the cut falls after min(n, length) characters |
| Ranking.WithScore | supabase/functions/analyze/index.ts:50 | the entries with a given score, in order (used to state stability) |
| Ranking.WithScoreAppend | supabase/functions/analyze/index.ts:50 | selecting by score distributes over concatenation |
| Ranking.Insert | supabase/functions/analyze/index.ts:50 | one more entry; the entries as a multiset are the old ones plus the new one |
| Ranking.InsertNonIncreasing | supabase/functions/analyze/index.ts:50 | inserting into a non-increasing sequence keeps it non-increasing |
| Ranking.InsertWithScore | supabase/functions/analyze/index.ts:50 | the inserted entry goes in front of the entries it ties with |
| Ranking.SortDesc | supabase/functions/analyze/index.ts:50 | the sort is a permutation of its input in non-increasing score order |
| Ranking.SortDescStable | supabase/functions/analyze/index.ts:50 | the sort is stable: entries with equal scores keep their input order |
| Ranking.FirstMaxIndex | supabase/functions/analyze/index.ts:50 | the position of the largest score, with every earlier position strictly smaller |
| Ranking.SortHeadIsFirstMax | supabase/functions/analyze/index.ts:50 | the sort's first entry is the first entry with the largest score |
| Ranking.WithScorePrefix | src/components/ReflectionModal.tsx:47-49 | a prefix keeps a prefix of each score's entries |
| Ranking.Relabel | src/components/ReflectionModal.tsx:47 | renaming keys keeps the length and the scores, position by position |
| Ranking.RelabelCons | src/components/ReflectionModal.tsx:47 | renaming keys commutes with adding a head entry |
| Ranking.InsertRelabel | src/components/ReflectionModal.tsx:48 | renaming keys commutes with one insertion |
| Ranking.SortDescRelabel | src/components/ReflectionModal.tsx:48 | the sort looks only at scores, so renaming keys commutes with it |
| Ranking.TopK | src/components/ReflectionModal.tsx:47-49 | `slice(0, k)` of the sort keeps min(k, n) entries, non-increasing, taken from the input |
| Ranking.TopKIsTop | src/components/ReflectionModal.tsx:47-49 | kept plus left out gives the input; nothing left out scores above anything kept; equal scores keep their order |
| Ranking.PrefixSplit | src/components/ReflectionModal.tsx:49 | a cut loses and invents nothing |
| Ranking.PrefixDominates | src/components/ReflectionModal.tsx:49 | after a cut of a non-increasing sequence, nothing past the cut exceeds anything before it |
| Analyze.Rank | supabase/functions/analyze/index.ts:41-48 | each emotion has one of six positions in the record's insertion order |
| Analyze.Entries | supabase/functions/analyze/index.ts:50 | `Object.entries` gives six pairs, with each emotion and its score at its insertion position |
| Analyze.Dominant | supabase/functions/analyze/index.ts:50 | the head of the sorted entries has the largest score, and every emotion earlier in the insertion order scores strictly less |
| Analyze.SortedEntriesHead | supabase/functions/analyze/index.ts:50 | the same fact for any sequence laid out like the entries |
| Analyze.DominantUnique | supabase/functions/analyze/index.ts:50 | an emotion meets that description if and only if it is the dominant one |
| Analyze.IsDominantUnique | supabase/functions/analyze/index.ts:50 | two emotions that both meet the description are equal |
| Analyze.RankInjective | supabase/functions/analyze/index.ts:41-48 | distinct emotions have distinct positions |
| Analyze.ExcitedNotDominant | supabase/functions/analyze/index.ts:42-50 | when excited does not beat happy, excited is not dominant |
| Analyze.LexiconsDistinct | supabase/functions/analyze/index.ts:28-31 | no lexicon lists a word twice |
| Analyze.LexiconsLowercase | supabase/functions/analyze/index.ts:28-31 | every keyword is non-empty and starts with a lower-case ASCII letter |
| Analyze.MatchingWords | supabase/functions/analyze/index.ts:35-38 | `filter` keeps exactly the list's words contained in the text, and no more than the list has |
| Analyze.KeywordsFoundCons | supabase/functions/analyze/index.ts:35-38 | the keywords found in a list are those found from its head plus those found in its tail |
| Analyze.MatchCountIsKeywordsFound | supabase/functions/analyze/index.ts:35-38 | the filtered length is the number of distinct keywords present; repeats count once |
| Analyze.MatchCountDependsOnlyOnKeywordsFound | supabase/functions/analyze/index.ts:35-38 | two texts containing the same keywords get the same matches |
| Analyze.MatchCountFullIff | supabase/functions/analyze/index.ts:35-38 | the count equals the list length if and only if every keyword occurs |
| Analyze.KeywordInsideWord | supabase/functions/analyze/index.ts:38 | a keyword inside a longer word counts ("hate" in "whatever") |
| Analyze.KeywordCounts | supabase/functions/analyze/index.ts:35-38 | each count is the number of distinct keywords of its list that are substrings of the text, at most the list's length |
| Analyze.Normalize | supabase/functions/analyze/index.ts:35-38 | the raw scores are non-negative |
| Analyze.Derive | supabase/functions/analyze/index.ts:39-48 | all six scores lie in [0, 1]; excited ≤ happy; neutral is 1 minus the raw sum when that sum is at most 1, and 0 otherwise |
| Analyze.NeutralFromEmittedScores | supabase/functions/analyze/index.ts:39-48 | using the clamped instead of the raw scores would give the same neutral |
| Analyze.RawScoreBounds | supabase/functions/analyze/index.ts:28-38 | anxious, sad and angry raw scores are at most 1; happy is at most 1.1, and above 1 exactly when all eleven positive words occur |
| Analyze.SuggestionsFor | supabase/functions/analyze/index.ts:74 | the suggestions lookup falls back to the neutral list for a key the table lacks |
| Analyze.TablesCoverEveryEmotion | supabase/functions/analyze/index.ts:52-74 | both tables cover every emotion, so the fallback is never taken; happy, excited and neutral get 2 suggestions, the others 3 |
| Analyze.EmotionScores | supabase/functions/analyze/index.ts:33-48 | the emitted scores are in [0, 1] and excited never exceeds happy |
| Analyze.Analyze | supabase/functions/analyze/index.ts:50-79 | the record holds the text's scores and a dominant emotion meeting the description, never excited; the reflection and suggestions are that emotion's table entries, 2 or 3 suggestions; safety is always empty flags and no action |
| Analyze.AnalyzeIgnoresCase | supabase/functions/analyze/index.ts:33 | lower-casing the input first changes nothing |
| Analyze.NoKeywordsNoCounts | supabase/functions/analyze/index.ts:35-38 | with no keyword present every count is 0 |
| Analyze.ZeroCountsAreNeutral | supabase/functions/analyze/index.ts:39-48 | zero counts give neutral 1 and every other score 0 |
| Analyze.OnlyNeutralIsDominant | supabase/functions/analyze/index.ts:50 | when neutral alone is positive, neutral is dominant |
| Analyze.NoKeywordsMeansNeutral | supabase/functions/analyze/index.ts:33-50 | a text without keywords scores neutral 1, others 0, and is classified neutral |
| Analyze.CheckText | supabase/functions/analyze/index.ts:21-23 | the check passes exactly for a non-empty string and yields that string; otherwise it fails with "Text is required" |
| Analyze.Truthy | supabase/functions/analyze/index.ts:21 | `!text` holds exactly for a missing `text`, `null`, `false`, `0` and `""` |
| Analyze.LogPreview | supabase/functions/analyze/index.ts:19 | `text?.substring(0, 100)` throws for a present value that is neither `null` nor a string; a missing or `null` text gives nothing; a string gives its longest prefix of at most 100 UTF-16 code units |
| Analyze.Classify | supabase/functions/analyze/index.ts:18-79 | success exactly for a non-empty string `text`, with its analysis; a present value that is neither `null` nor a string fails at the log line with the `substring` TypeError; a missing, `null` or empty text fails with "Text is required" |
| Analyze.FalsyNonStringFailsAtLog | supabase/functions/analyze/index.ts:19-23 | `0` and `false` are falsy, yet they fail at the log line rather than at the check |
| Analyze.ClassifyText | supabase/functions/analyze/index.ts:21-79 | a non-empty string is analysed |
| Analyze.LetterIsNotWhitespace | supabase/functions/analyze/index.ts:21 | a lower-case letter is not white space |
| Analyze.NoWordInWhitespace | supabase/functions/analyze/index.ts:35-38 | white space alone contains no word starting with a letter |
| Analyze.WhitespaceHasNoKeywords | supabase/functions/analyze/index.ts:35-38 | white space alone contains no keyword |
| Analyze.LowerWhitespace | supabase/functions/analyze/index.ts:33 | lower-casing white space leaves white space |
| Analyze.WhitespaceOnlyIsNeutral | supabase/functions/analyze/index.ts:21-50 | a non-empty, all-white-space text is accepted (no trim) and classified neutral |
| JournalInput.IsValid | src/components/JournalInput.tsx:28 | valid exactly when some character is not white space |
| JournalInput.WordCount | src/components/JournalInput.tsx:27-28 | the number of words of the text, trimmed or not; 0 exactly when the text is not valid |
| JournalInput.WithMoodTag | src/components/JournalInput.tsx:42 | the old text is a prefix; the result ends in `#mood`, with one space before it when the old text was not empty; the length is exact |
| JournalInput.MoodTagAppends | src/components/JournalInput.tsx:41-43 | empty text becomes `#mood`; other text is kept as a prefix followed by ` #mood` |
| JournalInput.MoodTagWords | src/components/JournalInput.tsx:27-43 | a tag without white space appends exactly the word `#mood` to the old words |
| JournalInput.MoodTagCounts | src/components/JournalInput.tsx:27-43 | such a tag raises the word count by one and leaves the text valid |
| JournalInput.MoodTagCountsIf | src/components/JournalInput.tsx:41-43 | the word-count fact, conditional on the tag having no white space |
| JournalInput.MoodTagsAreWords | src/components/JournalInput.tsx:14-21 | every badge label is a single non-empty word |
| JournalInput.JournalInput.constructor | src/components/JournalInput.tsx:24-25 | the text starts empty and the recorder hidden |
| JournalInput.JournalInput.HandleSubmit | src/components/JournalInput.tsx:30-34 | the untrimmed text is submitted exactly when it has a non-white-space character and nothing is loading |
| JournalInput.JournalInput.SetText | src/components/JournalInput.tsx:55 | typing replaces the text |
| JournalInput.JournalInput.HandleVoiceTranscript | src/components/JournalInput.tsx:36-39 | the transcript replaces the text and the recorder is hidden |
| JournalInput.JournalInput.ToggleVoice | src/components/JournalInput.tsx:79 | the recorder's visibility flips |
| JournalInput.JournalInput.AddMoodTag | src/components/JournalInput.tsx:41-43 | the tag is appended, the old text stays a prefix, and a tag without white space adds one word |
| ReflectionModal.ColourFor | src/components/ReflectionModal.tsx:29-76 | a listed emotion gets its colour; any other gets `bg-muted`; never empty |
| ReflectionModal.EveryEmotionHasAColour | src/components/ReflectionModal.tsx:29-76 | every label the classifier emits has its own colour |
| ReflectionModal.Percent | src/components/ReflectionModal.tsx:78 | the percentage is within one half of score × 100 |
| ReflectionModal.PercentInRange | src/components/ReflectionModal.tsx:78 | a score in [0, 1] shows as 0 to 100 |
| ReflectionModal.PercentInRangeIf | src/components/ReflectionModal.tsx:78 | the same, as an implication for any score |
| ReflectionModal.TopEmotions | src/components/ReflectionModal.tsx:47-49 | missing scores give no badges; otherwise min(3, n) badges in non-increasing order |
| ReflectionModal.TopEmotionsAreTop | src/components/ReflectionModal.tsx:47-49 | the shown entries are a true, stable top three of the scores |
| ReflectionModal.BadgeFor | src/components/ReflectionModal.tsx:72-79 | the badge carries the entry's emotion and a non-empty colour, `bg-muted` for an unlisted emotion, and a percentage from 0 to 100 for a score in [0, 1] |
| ReflectionModal.ShownSuggestions | src/components/ReflectionModal.tsx:98 | the section is shown exactly when the list exists and is non-empty |
| ReflectionModal.Render | src/components/ReflectionModal.tsx:45-98 | nothing without a reflection; otherwise at most 3 badges, one for each top entry, the reflection text, and the suggestions section when applicable |
| ReflectionModal.FromAnalysis | src/components/ReflectionModal.tsx:14-19 | an analysis becomes a prop with six score entries |
| ReflectionModal.FirstBadgeIsDominant | src/components/ReflectionModal.tsx:47-49 | the first badge is the classifier's dominant emotion |
| ReflectionModal.AnalysisView | src/components/ReflectionModal.tsx:45-98 | for any classified text the dialog shows three badges led by the dominant emotion, and the suggestions |
| Auth.ValidateSignUp | src/pages/Auth.tsx:51-59 | passes exactly when the email is non-empty and the password has at least 6 UTF-16 units; a missing field is reported before the length |
| Auth.ValidateSignIn | src/pages/Auth.tsx:74-77 | passes exactly when both fields are non-empty; the only message is "Please fill in all fields" |
| Auth.HandleSignUp | src/pages/Auth.tsx:51-63 | a failed check shows its message; otherwise `signUp` gets the email, password and display name |
| Auth.HandleSignIn | src/pages/Auth.tsx:74-81 | a failed check shows its message; otherwise `signIn` gets the email and password |
| Auth.EmptyFieldTakesPrecedence | src/pages/Auth.tsx:51-77 | a missing field yields the fill-in message, even when the password is also short |
| Auth.SixCharactersAreEnough | src/pages/Auth.tsx:56-63 | exactly six BMP characters are accepted |
| Auth.ShortPasswordRefused | src/pages/Auth.tsx:56-59 | fewer than six units yields the length message |
| Auth.DisplayNameIgnored | src/pages/Auth.tsx:51-63 | the display name never affects validation, and may be empty |
| Auth.SignInHasNoLengthRule | src/pages/Auth.tsx:74-81 | any non-empty password gets through sign-in |
| Auth.SignUpStricterThanSignIn | src/pages/Auth.tsx:51-77 | what sign-up accepts, sign-in accepts |
| Auth.OnlyValidFormsReachProvider | src/pages/Auth.tsx:51-81 | only forms that pass the checks reach `signUp` or `signIn` |

## Left out

- HTTP plumbing of the edge function is not modelled: `Deno.serve`, CORS and `OPTIONS`, `req.json()`, JSON serialisation and the status-500 response. Only the body's `text` field is modelled, as an optional JSON value; a thrown error becomes a `Failure` carrying its message. A body that is not parsable JSON, and a body that is `null` (whose destructuring at `supabase/functions/analyze/index.ts:18` throws), are not modelled. The wording of the `substring` TypeError is the JavaScript engine's.
- `wordCount` and `sentenceCount` in the edge function are computed and never used, so they are not modelled.
- Scores are exact reals. IEEE-754 rounding of the divisions and of `0.8 *` is not modelled.
- Analyze.LogPreview: when the 100th code unit is the first half of a surrogate pair, `substring` keeps that lone half; a Dafny string cannot hold it, so the preview stops before the pair. The preview only reaches the log.
- ReflectionModal.Percent: rounds the exact score, so the shown percentage can differ by one from the app's doubles on ordinary entries. For "happy, great, joy, but worried" neutral is exactly 0.575 and shows 58, where in doubles `score * 100` is 57.49999999999999 and the badge shows 57. The dominant emotion is affected only in near-ties.
- `toLowerCase` is ASCII case folding. Non-ASCII case mapping is not modelled; every keyword is lower-case ASCII.
- The scores reach the dialog as their entries in insertion order (`ReflectionModal.FromAnalysis`). JSON round-tripping, `Object.entries` moving integer-like keys to the front, and keys inherited from `Object.prototype` in the table lookups are not modelled.
- The remote calls are foreign code and are not modelled: Supabase queries, `signUp`, `signIn`, `signInAnonymously` and `toast`. The handlers' outcome names the call or the toast instead. The `loading` flag toggled around the awaited calls in the auth page is left out.
- JournalInput.JournalInput.HandleSubmit: `loading` is a parameter rather than state, because it is a prop owned by the parent. The `onSubmit` callback becomes the returned value.
- Rendering is not modelled: the JSX, the dialog's open state, and its save and discard buttons. Also left out are the dashboard, settings, index page, voice recorder, the voice and demo functions' fixed data, and the app's routing.
- The voice recorder's `onClose` sets `showVoice` to false, as `HandleVoiceTranscript` does. It has no separate method.
- Apart from `Analyze.KeywordInsideWord`, `Analyze.FalsyNonStringFailsAtLog` and `Analyze.ZeroCountsAreNeutral`, no concrete input/output examples are stated as lemmas; the properties are proved for all inputs instead.
