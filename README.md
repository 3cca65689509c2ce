# kanji-memori: a Dafny model of the word filter, the quiz judgement, the list cascade and the scoring

kanji-memori is a vocabulary web application. Words (kana, optional kanji, translations,
optional list membership) and user-defined lists live under a user's node of a realtime
database. This project models the pure data-shaping rules at its core and proves their properties:

- **Word filter** (`filterWords`, the word list screen). It applies two chained filters. The list
  stage uses lodash's `intersection` length test. The text stage compares the lowered search for
  exact equality with kana, kanji, the lowered translation and the lowered secondary translation.
  The same screen converts a word's list ids to selector options and back.
- **Quiz judgement** (`Quizz`). There are two total tables from the training type to a word
  field: the prompt shown and the expected answer. A guess is judged by strict, case-sensitive
  equality with the expected answer.
- **List cascade** (`removeList`). It rewrites every word whose `list` holds the removed id, then
  deletes the list record. The store is a class with a word map and a list map, and
  `RemoveList` is a loop of map writes followed by a key removal. `addListOnSubmit` and
  `onWordCreation` are map writes too.
- **Result scoring** (`Results`). `countValidWord` is a left fold. The score line and the
  result table are built from the guess records.

Modules: `Records` (the records and ASCII lowering), `Sequences` (filtering, subsequences,
distinctness), and `Home`, `Quizz`, `Results`, `ManageLists`, one per source file. The store in
`ManageLists` gathers the writes of both screens, so it also holds the word creation of the word list
screen (`WordForm`, `NewWord`, `Store.AddWord`).

A JavaScript field that is `undefined` or `null` is `None`. The prompt and the answer are
`Option<string>`: `None` is the `undefined` a missing field yields, which no string guess equals.
Collections that the source iterates as objects (`words`, `lists`) are given as the sequence of
their values in iteration order.

Three behaviours are easy to misread; the model follows the code:
- A word with no `list` passes a non-empty list filter, because the else-branch returns true.
- The quiz reads the translation from `name`, not `traduction`.
- The score's denominator is `guessWords.length - 1` (see Findings).

## Model

| member | source | states |
|---|---|---|
| Records.Lower | src/scenes/private/scenes/home/Home.js:71-73 | lowering keeps the length (a non-empty search stays non-empty) and lowers each ASCII capital |
| Records.LowerIdempotent | src/scenes/private/scenes/home/Home.js:71-73 | lowered text has no capitals left; lowering twice equals lowering once |
| Sequences.Select | src/scenes/private/scenes/home/Home.js:60-66 | `filter` keeps exactly the elements satisfying the predicate, each as often as in the input, as a subsequence in order |
| Sequences.SelectSelect | src/scenes/private/scenes/home/Home.js:60-77 | two chained filters equal one filter by the conjunction |
| Home.Intersection | src/scenes/private/scenes/home/Home.js:62 | lodash `intersection` is duplicate-free and holds exactly the values common to both arrays |
| Home.IntersectionLength | src/scenes/private/scenes/home/Home.js:62 | the compared length is the number of distinct shared values |
| Home.ListStageIsMembership | src/scenes/private/scenes/home/Home.js:61-62 | a word with a `list` passes a non-empty duplicate-free filter iff every selected id is in its `list` (both directions) |
| Home.ListStageRejectsDuplicates | src/scenes/private/scenes/home/Home.js:61-62 | a filter with a repeated id rejects every word that has a `list` |
| Home.ListStageAdmitsListless | src/scenes/private/scenes/home/Home.js:61-65 | a word without `list` passes the list stage whatever the filter |
| Home.PassesListStage | src/scenes/private/scenes/home/Home.js:60-65 | the first `filter` callback admits every word when no list is selected or the word has no `list`; otherwise a passing word shares as many distinct ids with the filter as the filter is long |
| Home.SecondaryKey | src/scenes/private/scenes/home/Home.js:72 | an absent secondary translation is compared as `''` |
| Home.PassesTextStage | src/scenes/private/scenes/home/Home.js:66-77 | the second callback admits every word for an empty search; otherwise a passing word has the lowered search as its kana, kanji, lowered translation or secondary key |
| Home.TextStageIsExactMatch | src/scenes/private/scenes/home/Home.js:67-73 | a non-empty search passes iff its lowering equals kana, kanji, the lowered translation or the lowered secondary translation |
| Home.AbsentSecondaryNeverMatches | src/scenes/private/scenes/home/Home.js:72-73 | with no secondary translation only kana, kanji and translation can match |
| Home.SearchIsNotSubstring | src/scenes/private/scenes/home/Home.js:68-73 | "wat" does not find "water": equality, not substring |
| Home.FilterWords | src/scenes/private/scenes/home/Home.js:59-78 | a word is shown iff it is among the words and passes both stages |
| Home.FilterWordsIsOneFilter | src/scenes/private/scenes/home/Home.js:59-78 | the two stages are one filter by both predicates |
| Home.FilterWordsKeepsOrder | src/scenes/private/scenes/home/Home.js:60-66 | the shown words are a subsequence of all words in their order |
| Home.FilterWordsWithoutFilters | src/scenes/private/scenes/home/Home.js:59-78 | no list selected and an empty search show all words unchanged |
| Home.FilterWordsIdempotent | src/scenes/private/scenes/home/Home.js:59-78 | filtering the result again with the same criteria returns it unchanged |
| Home.FilterWordsTwoLists | src/scenes/private/scenes/home/Home.js:59-65 | of words in lists [a, b] and [a], the filter [a, b] keeps only the first |
| Home.ListsOptions | src/scenes/private/scenes/home/Home.js:101-104 | one option per list record, label its name and value its id |
| Home.IdsToOptions | src/scenes/private/scenes/home/Home.js:233-238 | succeeds iff every id is a list key, else fails at the first missing id; options read name and id from the record under each id |
| Home.OptionValues | src/scenes/private/scenes/home/Home.js:133 | options become their values, one per option, in order |
| Home.InitialList | src/scenes/private/scenes/home/Home.js:233-238 | an absent `list` stays absent in the form's initial values |
| Home.SubmittedList | src/scenes/private/scenes/home/Home.js:141 | an absent selection is written as an absent `list` |
| Home.InitialListFails | src/scenes/private/scenes/home/Home.js:233-238 | opening a word for edition fails iff one of its ids is not a list key |
| Home.IdsRoundTrip | src/scenes/private/scenes/home/Home.js:233-238 | ids to options and back give the original `list` when every id is the key of a record carrying it |
| Home.OptionsRoundTrip | src/scenes/private/scenes/home/Home.js:101-104 | options chosen from `listsOptions`, to ids and back, give the same options |
| Quizz.OnFormSubmit | src/scenes/private/scenes/training/components/quizz/Quizz.js:83-85 | the callback gets the current word unchanged, and valid iff the guess equals the expected answer exactly |
| Quizz.DisplayCurrentWord | src/scenes/private/scenes/training/components/quizz/Quizz.js:42-54 | `displayCurrentWord`: `''` for an unknown mode; undefined only when the field the mode shows (kanji, or `name`) is |
| Quizz.GetAnswer | src/scenes/private/scenes/training/components/quizz/Quizz.js:56-69 | `getAnswer`: `''` for an unknown mode; undefined only when `name` (kanji_to_traduction) or kanji (traduction_to_kanji) is |
| Quizz.PromptTable | src/scenes/private/scenes/training/components/quizz/Quizz.js:42-54 | the prompt per mode: kanji; kanji or, when falsy, kana; `name` for both translation modes; `''` otherwise |
| Quizz.AnswerTable | src/scenes/private/scenes/training/components/quizz/Quizz.js:56-69 | the answer per mode: kana, `name`, kanji, kana; `''` otherwise |
| Quizz.SharedEntries | src/scenes/private/scenes/training/components/quizz/Quizz.js:48-65 | both translation modes share a prompt; kanji_to_kana and traduction_to_kana share an answer |
| Quizz.KanjiPromptFallsBack | src/scenes/private/scenes/training/components/quizz/Quizz.js:46-47 | the kanji_to_traduction prompt is always defined, and non-empty unless the kana is empty |
| Quizz.ValidGuessIsTheField | src/scenes/private/scenes/training/components/quizz/Quizz.js:56-85 | a valid guess equals the field its mode asks for, and is `''` for an unknown mode |
| Quizz.UnknownModeAcceptsOnlyEmpty | src/scenes/private/scenes/training/components/quizz/Quizz.js:66-84 | under an unknown mode exactly the empty guess is valid |
| Quizz.UndefinedAnswerRejectsAll | src/scenes/private/scenes/training/components/quizz/Quizz.js:56-85 | when the asked field is undefined no guess is valid, which happens only in the two modes reading optional fields |
| Quizz.JudgementIgnoresTraduction | src/scenes/private/scenes/training/components/quizz/Quizz.js:60-61 | the judgement does not depend on `traduction` or `secondaryTraduction` |
| Quizz.JudgementIsCaseSensitive | src/scenes/private/scenes/training/components/quizz/Quizz.js:84 | "Water" is not accepted for "water" |
| Quizz.WaterScenarios | src/scenes/private/scenes/training/components/quizz/Quizz.js:42-85 | 水: kanji_to_kana shows 水 and accepts みず; traduction_to_kanji shows "water" and rejects 火 |
| Results.Reduce | src/scenes/private/scenes/training/components/results/Results.js:47 | the fold adds between 0 and one per record; it adds nothing iff no record is valid and one per record iff all are |
| Results.CountValidWord | src/scenes/private/scenes/training/components/results/Results.js:47 | `countValidWord`: at most the number of records, and 0 iff no record is valid |
| Results.CountValidWordSnoc | src/scenes/private/scenes/training/components/results/Results.js:47 | the empty count is 0; an appended record adds 1 exactly when valid |
| Results.CountValidWordCountsValid | src/scenes/private/scenes/training/components/results/Results.js:47 | `countValidWord` equals the number of positions holding a valid record |
| Results.CountValidWordBounds | src/scenes/private/scenes/training/components/results/Results.js:47 | 0 <= count <= number of records, with equality at the top iff all valid and at 0 iff none |
| Results.ScoreLine | src/scenes/private/scenes/training/components/results/Results.js:54 | the displayed score is (count, number of records - 1) |
| Results.ScoreLineExceedsTotal | src/scenes/private/scenes/training/components/results/Results.js:54 | with all guesses valid the numerator is one above the denominator; no records show -1 |
| Results.ScoreLineOneOfZero | src/scenes/private/scenes/training/components/results/Results.js:54 | a single valid guess displays as 1 / 0 |
| Results.IntendedScoreLine | src/scenes/private/scenes/training/components/results/Results.js:54 | with the number of records as total, count <= total, equal iff all valid |
| Results.ResultTable | src/scenes/private/scenes/training/components/results/Results.js:75-81 | one row per record in order: kanji, guess, the word's kana as Answer, validity |
| Results.ResultTableIgnoresMode | src/scenes/private/scenes/training/components/results/Results.js:75-81 | the table is the same whatever the training type |
| Results.AnswerColumnIsNotTheExpectedAnswer | src/scenes/private/scenes/training/components/results/Results.js:79 | in kanji_to_traduction a row can show a valid guess beside a different Answer (the kana) |
| ManageLists.Detach | src/scenes/private/scenes/manage-lists/ManageLists.js:63 | the result is the list filtered by `listId !== id`: every occurrence of the id gone, the other ids kept with their multiplicity and order; a list without the id is unchanged |
| ManageLists.DetachWord | src/scenes/private/scenes/manage-lists/ManageLists.js:62-63 | only a word whose `list` holds the id changes, and only in its `list` |
| ManageLists.WithoutList | src/scenes/private/scenes/manage-lists/ManageLists.js:62-63 | no word is created or deleted |
| ManageLists.WithoutListCascade | src/scenes/private/scenes/manage-lists/ManageLists.js:62-63 | afterwards no word holds the id; unaffected words are unchanged; an affected word's `list` is the old one filtered by `listId !== id`, and every other field is kept |
| ManageLists.WithoutListIdempotent | src/scenes/private/scenes/manage-lists/ManageLists.js:61-66 | removing a list twice rewrites the words as removing it once |
| ManageLists.WithoutListKeeps | src/scenes/private/scenes/manage-lists/ManageLists.js:62-63 | the cascade keeps every word under its own id |
| ManageLists.RemovedListFilter | src/scenes/private/scenes/manage-lists/ManageLists.js:62-63 | after the cascade, filtering by the removed list shows exactly the words without a `list` |
| ManageLists.NewList | src/scenes/private/scenes/manage-lists/ManageLists.js:48-55 | the new list record carries the chosen id and the form's name |
| ManageLists.NewWord | src/scenes/private/scenes/home/Home.js:127-135 | the new word carries the chosen id, the form's fields and the ids of the selected options |
| ManageLists.Store.AddList | src/scenes/private/scenes/manage-lists/ManageLists.js:48-55 | stores `{id, name}` under `id`, so `lists[id].id == id`; nothing else changes |
| ManageLists.Store.AddWord | src/scenes/private/scenes/home/Home.js:127-135 | stores the new word under its id; the lists are unchanged |
| ManageLists.Store.RemoveList | src/scenes/private/scenes/manage-lists/ManageLists.js:61-66 | the words become the cascade of the old words and the list key is deleted; every other list record is unchanged |
| ManageLists.RemoveListTwice | src/scenes/private/scenes/manage-lists/ManageLists.js:61-66 | removing a list twice leaves the store as removing it once: same word keys, no word in the list, list key gone |

## Left out

- Database calls (`addFirebaseValue`, `setFirebaseValue`, `removeFirebaseValue`, the subscriptions): they are modelled as writes and deletes on the store's maps. Network, asynchrony and failures are not modelled.
- The database stores an empty array as absent. So a word whose only list is removed really ends with no `list`, and then passes every list filter again. The model keeps `Some([])`, as the code writes it.
- Word.traduction is taken as always present. In the source, `traduction.toLowerCase()` (Home.js:71) throws a TypeError for a word without `traduction` as soon as the search is non-empty, and the whole filter fails; the model has no such error path.
- `Date.now()` ids (Home.js:119, 128; ManageLists.js:49): the id is a parameter.
- Unicode `toLowerCase`: `Lower` lowers ASCII capitals only.
- `onWordEdition` (Home.js:137-144) merges fields into an existing record. Only its `list` conversion (`SubmittedList`) is modelled, not the merge.
- `updateList` (ManageLists.js:57-59) and `removeWord` (Home.js:114-116) are single backend writes and are not modelled.
- The guards on `words` and `lists` being `null` or `undefined` (Home.js:93, 99, 163, 247): the model takes the collections as given.
- Object iteration order: lodash iterates the `words` and `lists` objects in key order. The model takes that order as the input sequence. `RemoveList` visits the affected keys in some order; each write touches a different key, so the order does not change the result.
- ManageLists.Store.RemoveList: requires every word to sit under its own id (`Valid`). The code writes at `word.id`, and `onWordCreation` establishes that invariant.
- The quiz session driver (word pool, index, accumulated records) is not part of this model. `Quizz.js` only receives a word and reports a judgement. `Training.js` gates a button and uses other mode names.
- The guess-required form rule (Quizz.js:103) lives in a file that is not part of this model. `OnFormSubmit` accepts any guess, the empty one included.
- The progress caption (Quizz.js:96-98), rendering, styling, translations and the selector widgets.

## Findings

| source | as written | input that shows it | evidently intended | confidence | as-written member | corrected member |
|---|---|---|---|---|---|---|
| src/scenes/private/scenes/training/components/results/Results.js:54 | the score is shown over `guessWords.length - 1` | one record with a valid guess shows "1 / 0"; all valid always shows one more than the total | the total is the number of records, so the score never exceeds it | medium, not executed | Results.ScoreLineExceedsTotal | Results.IntendedScoreLine |
