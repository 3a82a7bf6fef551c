# Hyakunin Isshu quiz: session model

The app is a one-page quiz on the Hundred Poets anthology (百人一首). For each
poem it shows the first half (上の句) and offers four candidate second halves
(下の句): the right one and three drawn from the other poems. The app counts
correct answers over one round of every poem. A round is asked in ID order
(ID順) or in random order (ランダム). The app keeps its state between
interactions in a session store; every button press changes some of it.

This project models that session as the Dafny class `Quiz.QuizSession`. Its
fields are the stored mode, the question order, the current position, the
score, the answered flag, the current options and the correct second half.
Each user action becomes one method:

- choosing the order in the sidebar (`SelectMode`);
- showing a question, which generates its options once (`EnsureOptions`);
- answering (`Submit`);
- moving to the next question (`Next`);
- reading the final score (`FinalScore`);
- starting again (`Retry`).

Every method keeps the class invariant `Valid()`. In words:

- the order lists every poem id exactly once;
- in ID order the list is ascending;
- the position never passes the end of the list;
- the score is at most the number of answered questions;
- an answer is recorded only while the question is marked answered;
- the stored options are a possible result of option generation for the current question.

Randomness is modelled as a choice among all the outcomes that can happen:

- the random order may be any rearrangement of the ids;
- the decoys may be any three different positions of the pool of other second halves;
- the final shuffle of the four options may be any permutation. The permutation is kept as a ghost field next to the options.

The project has four modules:

- `Poems` holds the poem record, the list of ids, lookup by id and the pool of decoy candidates.
- `Ordering` holds the ascending sort used for ID order.
- `Description` holds the pure text formatting of a poem's commentary: strip, then a blank line in front of each of the three section headings 【出典】, 【背景・情景】 and 【文学的ポイント】.
- `Quiz` holds option generation and the session class.

## Model

| member | source | states |
|---|---|---|
| Poems.Ids | app.py:33 | the id list has one entry per poem, and entry k is the id of poem k |
| Poems.FindPoem | app.py:99 | a poem is found exactly when its id is among the corpus ids; the poem found carries that id and belongs to the corpus |
| Poems.FindPoemUnique | app.py:99 | with unique ids, looking up the id of poem k returns poem k itself |
| Poems.DecoyPool | app.py:106 | the pool of decoy candidates has no more entries than there are poems; its members are given by `DecoyPoolMembers` and its order by `DecoyPoolAppend` |
| Poems.DecoyPoolMembers | app.py:106 | every decoy candidate is the second half of a poem with a different id, and every such poem contributes its second half |
| Poems.DecoyPoolSize | app.py:106-109 | with unique ids and the asked id present, there is exactly one candidate fewer than poems, so drawing three succeeds exactly when there are at least four poems |
| Poems.DecoyPoolDistinct | app.py:106 | if no two poems share a second half, the candidates are pairwise different and do not contain the correct second half |
| Poems.DecoyPoolAppend | app.py:106 | the pool of a corpus split in two is the pool of the first part followed by the pool of the second |
| Poems.DecoyPoolPair | app.py:106 | two poems whose id differs from the one asked have their second halves at two different positions of the pool, in corpus order |
| Poems.DecoyPoolAt | app.py:106 | a poem whose id differs from the one asked has its second half at some position of the pool |
| Poems.DistinctPermutation | app.py:37 | any rearrangement of a list without repeats has no repeats |
| Ordering.Insert | app.py:39 | inserting adds exactly the one value to the multiset of elements |
| Ordering.InsertAscending | app.py:39 | inserting into an ascending list keeps it ascending |
| Ordering.Sort | app.py:39 | sorting keeps exactly the same elements, each as often |
| Ordering.SortAscending | app.py:39 | the sorted list is ascending |
| Ordering.SortDistinctIsStrict | app.py:33-39 | sorting distinct ids gives a strictly ascending list |
| Ordering.StrictOrderUnique | app.py:39 | two strictly ascending lists with the same elements are equal, so the ID order is unique |
| Quiz.ChooseOrder | app.py:33-41 | the question list holds every corpus id as often as the corpus does; in ID order it is ascending, and strictly ascending when ids are unique |
| Quiz.ByIdOrderIsSorted | app.py:38-41 | a strictly ascending arrangement of the ids is exactly the sorted id list |
| Quiz.OrderCoversCorpus | app.py:33-41 | a question order is as long as the corpus, has no repeats, contains every poem id, and every id in it finds a poem |
| Quiz.OrderedIdsExist | app.py:97-99 | every id in the question order belongs to a poem of the corpus |
| Quiz.Picked | app.py:109 | the three decoys drawn from the pool; what they are is stated by `PickedFromPool` |
| Quiz.PickedFromPool | app.py:109 | a draw yields three strings of the pool, and three different ones when the pool has no repeats |
| Quiz.SampleWith | app.py:109 | any two different positions of a pool of at least three can be the first two positions drawn |
| Quiz.Shuffled | app.py:113 | the four options rearranged by the shuffle; what it keeps is stated by `ShuffleOnto`, `ShuffledKeeps` and `ShuffledPermutes` |
| Quiz.ShuffleOnto | app.py:113 | a shuffle of four positions uses every position |
| Quiz.ShuffledKeeps | app.py:113 | every value is still present after shuffling |
| Quiz.ShuffledPermutes | app.py:113 | shuffling gives a permutation of the four values |
| Quiz.GenerateOptions | app.py:102-117 | generation succeeds exactly when the corpus has at least four poems; it then yields three sampled decoys plus the correct second half, shuffled |
| Quiz.OptionListShape | app.py:103-117 | generated options are four values, a permutation of the three decoys and the correct second half, and they contain the correct second half |
| Quiz.DecoysFromOtherPoems | app.py:106-109 | every option other than the correct one is the second half of a poem with a different id |
| Quiz.OptionsDistinct | app.py:106-113 | if no two poems share a second half, the four options are pairwise different |
| Quiz.OptionsMayRepeat | app.py:106-113 | if two poems share a second half, some possible draw and shuffle give a repeated option; with `OptionsDistinct`, the options are always distinct exactly when no two poems share a second half |
| Quiz.TwoDecoysRepeat | app.py:106-113 | two poems other than the one asked that share a second half can both be drawn, giving a repeated option |
| Quiz.DecoyRepeatsCorrect | app.py:106-113 | a poem that shares its second half with the poem asked can be drawn beside the correct answer, giving a repeated option |
| Quiz.RepeatedDraw | app.py:106-113 | a draw whose first decoy equals the second decoy or the correct answer gives options with a repeat under every shuffle, and such a draw is possible |
| Quiz.ShuffledRepeats | app.py:113 | four values with a repeat still have a repeat after any shuffle |
| Quiz.QuizSession.constructor | app.py:78-80 | a session over a loaded non-empty corpus starts with no mode chosen |
| Quiz.QuizSession.Initialize | app.py:21-51 | records the mode, builds a full question order (strictly ascending in ID order), resets position, score and answered flag, and drops the options and the recorded answer; the correct answer is kept |
| Quiz.QuizSession.SelectMode | app.py:89-90 | re-initialises exactly when no mode is stored or the stored one differs; otherwise nothing changes |
| Quiz.QuizSession.CurrentPoem | app.py:96-99 | while questions remain, the poem at the current position exists and carries the id asked |
| Quiz.QuizSession.EnsureOptions | app.py:96-117 | fills the options only when a question is pending and none are held; fails, changing nothing, exactly when drawing three decoys fails; held options are never replaced; the held options are four and contain the correct second half of the current poem |
| Quiz.QuizSession.Submit | app.py:211-220 | only when unanswered: records the choice, marks the question answered, and raises the score by one exactly when the choice is the correct answer |
| Quiz.QuizSession.IdOrderStaysSorted | app.py:36-41 | in ID order the question list of a valid session is strictly ascending and equals the sorted id list, at every point of the round |
| Quiz.QuizSession.Next | app.py:202-207 | only when answered: advances the position by one, clears the answered flag, drops the options and the recorded answer, and keeps score and order |
| Quiz.QuizSession.FinalScore | app.py:226-229 | at the end, the score shown is at most the number of questions, which equals the number of poems |
| Quiz.QuizSession.Retry | app.py:231-233 | at the end, restarts the round in the stored mode with position and score zero |
| Quiz.Launch | app.py:78-80 | a session exists exactly when the corpus file was loaded (the loader at app.py:7-18 gives no corpus when the file is missing) and the corpus is non-empty |
| Description.Strip | app.py:159 | stripping never lengthens the text and leaves no white space at either end; `StripSpec` states that only white space is removed |
| Description.TrimStart | app.py:159 | removes only leading white space, and leaves no white space at the start |
| Description.TrimEnd | app.py:159 | removes only trailing white space, and leaves no white space at the end |
| Description.StripSpec | app.py:159 | the stripped text is a contiguous piece of the original with only white space removed on each side, and it has no white space at either end |
| Description.StripIdempotent | app.py:159 | stripping twice is stripping once |
| Description.ReplaceAll | app.py:161-163 | a replacement at least as long as the pattern never shortens the text, and text without the pattern comes back unchanged; `UnseparateSeparate` states the round trip of each heading replacement |
| Description.HeadingsAreHeadings | app.py:161-163 | the three section headings contain no line break and do not overlap themselves |
| Description.UnseparateSeparate | app.py:161-163 | removing the inserted blank line in front of a heading restores the text exactly |
| Description.SeparateKeepsSeparated | app.py:161-163 | one replacement step puts a blank line in front of every occurrence of its heading and keeps the blank lines in front of the other headings |
| Description.Format | app.py:157-163 | the displayed commentary is at least as long as the stripped one; `FormatRoundTrip` and `FormatSeparatesHeadings` state what it holds |
| Description.FormatRoundTrip | app.py:157-163 | the displayed commentary differs from the stripped commentary only by the inserted blank lines |
| Description.FormatSeparatesHeadings | app.py:157-163 | in the displayed commentary every occurrence of each of the three headings has a blank line in front of it |

## Left out

- Reading the corpus file, JSON decoding and caching (app.py:7-18): `Launch` takes the load result, either no corpus or a list of poems, as a parameter.
- A corpus in which two poems share an id: the session's constructor and `Launch` require unique ids. The corpus is treated as given data with unique ids.
- The missing-corpus check inside `initialize_quiz` (app.py:29-30): the app never reaches it without a non-empty corpus (app.py:80), so sessions exist only over a loaded corpus.
- Page layout, CSS, headers, radio widgets, balloons, success and error messages (app.py:57-74, 120-129, 136-170, 227-229): presentation only.
- Widget keys and reruns of the script (app.py:85, 127, 208, 223, 234): each button press is one method call.
- The probabilities of `random.shuffle` and `random.sample`: only the set of possible outcomes is modelled.
- The code that is commented out (app.py:165-198).
- The mode strings "ID順" and "ランダム" are the two constructors `ById` and `Random`. Every string other than "ランダム" sorts (app.py:36-39), but the sidebar offers only these two.
- Quiz.QuizSession.EnsureOptions: a failed draw is returned as `false`. The source raises an exception there, which ends the script run.
- Quiz.QuizSession.Submit: the choice is required to be one of the options. The radio widget offers only those (app.py:124-129).
- Python's Unicode white-space set and `replace` scanning are modelled on code points. The source text's encoding is not modelled.
