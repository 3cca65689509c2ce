/** One quiz step: the prompt shown for the current word, the answer expected
    for it, and the judgement of a guess. The training type is the string the
    component receives; any string other than the four modes is possible. */
module Quizz {
  import opened Records

  const KanjiToKana := "kanji_to_kana"
  const KanjiToTraduction := "kanji_to_traduction"
  const TraductionToKanji := "traduction_to_kanji"
  const TraductionToKana := "traduction_to_kana"

  predicate IsKnownMode(trainingType: string)
  {
    trainingType in [KanjiToKana, KanjiToTraduction, TraductionToKanji, TraductionToKana]
  }

  /** JavaScript truthiness of an optional string: present and non-empty. */
  predicate Truthy(s: Option<string>)
  {
    s.Some? && s.value != ""
  }

  /** `displayCurrentWord`: the prompt, `None` where the word's field is undefined. */
  function DisplayCurrentWord(trainingType: string, currentWord: Word): (prompt: Option<string>)
    ensures !IsKnownMode(trainingType) ==> prompt == Some("")
    ensures prompt.None? ==>
      || (trainingType == KanjiToKana && currentWord.kanji.None?)
      || (trainingType in [TraductionToKanji, TraductionToKana] && currentWord.name.None?)
  {
    if trainingType == KanjiToKana then currentWord.kanji
    else if trainingType == KanjiToTraduction then
      (if Truthy(currentWord.kanji) then currentWord.kanji else Some(currentWord.kana))
    else if trainingType == TraductionToKanji || trainingType == TraductionToKana then currentWord.name
    else Some("")
  }

  /** `getAnswer`: the expected answer, `None` where the word's field is undefined. */
  function GetAnswer(trainingType: string, currentWord: Word): (answer: Option<string>)
    ensures !IsKnownMode(trainingType) ==> answer == Some("")
    ensures answer.None? ==>
      || (trainingType == KanjiToTraduction && currentWord.name.None?)
      || (trainingType == TraductionToKanji && currentWord.kanji.None?)
  {
    if trainingType == KanjiToKana then Some(currentWord.kana)
    else if trainingType == KanjiToTraduction then currentWord.name
    else if trainingType == TraductionToKanji then currentWord.kanji
    else if trainingType == TraductionToKana then Some(currentWord.kana)
    else Some("")
  }

  /** The arguments `onFormSubmit` passes to `onWordValidation`. */
  datatype Validation = Validation(isValid: bool, word: Word)

  /** `onFormSubmit`: the guess is judged by strict equality with the expected answer,
      and the current word is handed on as it is. */
  function OnFormSubmit(trainingType: string, currentWord: Word, guess: string): (v: Validation)
    ensures v.word == currentWord
    ensures v.isValid <==> GetAnswer(trainingType, currentWord).Some? && guess == GetAnswer(trainingType, currentWord).value
  {
    Validation(GetAnswer(trainingType, currentWord) == Some(guess), currentWord)
  }

  /** The prompt per mode, and `''` for any other training type. */
  lemma PromptTable(trainingType: string, w: Word)
    ensures trainingType == KanjiToKana ==> DisplayCurrentWord(trainingType, w) == w.kanji
    ensures trainingType == KanjiToTraduction && Truthy(w.kanji) ==> DisplayCurrentWord(trainingType, w) == w.kanji
    ensures trainingType == KanjiToTraduction && !Truthy(w.kanji) ==> DisplayCurrentWord(trainingType, w) == Some(w.kana)
    ensures trainingType in [TraductionToKanji, TraductionToKana] ==> DisplayCurrentWord(trainingType, w) == w.name
    ensures !IsKnownMode(trainingType) ==> DisplayCurrentWord(trainingType, w) == Some("")
  {
  }

  /** The expected answer per mode, and `''` for any other training type. */
  lemma AnswerTable(trainingType: string, w: Word)
    ensures trainingType in [KanjiToKana, TraductionToKana] ==> GetAnswer(trainingType, w) == Some(w.kana)
    ensures trainingType == KanjiToTraduction ==> GetAnswer(trainingType, w) == w.name
    ensures trainingType == TraductionToKanji ==> GetAnswer(trainingType, w) == w.kanji
    ensures !IsKnownMode(trainingType) ==> GetAnswer(trainingType, w) == Some("")
  {
  }

  /** The two translation modes show the same prompt; the two kana modes expect the same answer. */
  lemma SharedEntries(w: Word)
    ensures DisplayCurrentWord(TraductionToKanji, w) == DisplayCurrentWord(TraductionToKana, w)
    ensures GetAnswer(KanjiToKana, w) == GetAnswer(TraductionToKana, w)
  {
  }

  /** In kanji_to_traduction mode the prompt is always a string: the kana stands in for a falsy kanji. */
  lemma KanjiPromptFallsBack(w: Word)
    ensures DisplayCurrentWord(KanjiToTraduction, w).Some?
    ensures DisplayCurrentWord(KanjiToTraduction, w).value != "" || w.kana == ""
  {
  }

  /** A valid guess is the very field the mode asks for. */
  lemma ValidGuessIsTheField(trainingType: string, w: Word, guess: string)
    requires OnFormSubmit(trainingType, w, guess).isValid
    ensures trainingType in [KanjiToKana, TraductionToKana] ==> guess == w.kana
    ensures trainingType == KanjiToTraduction ==> w.name == Some(guess)
    ensures trainingType == TraductionToKanji ==> w.kanji == Some(guess)
    ensures !IsKnownMode(trainingType) ==> guess == ""
  {
  }

  /** An unrecognised training type accepts the empty guess and nothing else. */
  lemma UnknownModeAcceptsOnlyEmpty(trainingType: string, w: Word, guess: string)
    requires !IsKnownMode(trainingType)
    ensures OnFormSubmit(trainingType, w, guess).isValid <==> guess == ""
  {
  }

  /** When the field a mode asks for is undefined, no guess is valid. */
  lemma UndefinedAnswerRejectsAll(trainingType: string, w: Word, guess: string)
    requires GetAnswer(trainingType, w).None?
    ensures !OnFormSubmit(trainingType, w, guess).isValid
    ensures trainingType in [KanjiToTraduction, TraductionToKanji]
  {
  }

  /** The judgement reads `name`; the searchable translations play no part in it. */
  lemma JudgementIgnoresTraduction(trainingType: string, w: Word, guess: string, t: string, s: Option<string>)
    ensures OnFormSubmit(trainingType, w.(traduction := t, secondaryTraduction := s), guess).isValid
         == OnFormSubmit(trainingType, w, guess).isValid
  {
  }

  /** The comparison is case-sensitive. */
  lemma JudgementIsCaseSensitive()
    ensures !OnFormSubmit(KanjiToTraduction, Word("1", "みず", Some("水"), "water", None, Some("water"), None), "Water").isValid
  {
  }

  /** The word 水 (みず, water): kanji_to_kana accepts みず; traduction_to_kanji shows "water" and rejects 火. */
  lemma WaterScenarios()
    ensures
      var w := Word("1", "みず", Some("水"), "water", None, Some("water"), None);
      && DisplayCurrentWord(KanjiToKana, w) == Some("水")
      && OnFormSubmit(KanjiToKana, w, "みず") == Validation(true, w)
      && DisplayCurrentWord(TraductionToKanji, w) == Some("water")
      && OnFormSubmit(TraductionToKanji, w, "火") == Validation(false, w)
  {
  }
}
