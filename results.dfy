/** The results screen: the count of valid guesses, the score line and the table rows. */
module Results {
  import opened Records
  import Quizz

  /** One record of `GuessWords`. */
  datatype GuessWord = GuessWord(isValid: bool, guess: string, word: Word)

  /** `counter + word.isValid`: a boolean adds as 1 or 0. */
  function Bit(b: bool): nat
  {
    if b then 1 else 0
  }

  /** `guessWords.reduce(step, counter)`, folding from the left. */
  function Reduce(guessWords: seq<GuessWord>, counter: nat): (n: nat)
    ensures counter <= n <= counter + |guessWords|
    ensures n == counter <==> forall i :: 0 <= i < |guessWords| ==> !guessWords[i].isValid
    ensures n == counter + |guessWords| <==> forall i :: 0 <= i < |guessWords| ==> guessWords[i].isValid
  {
    if guessWords == [] then counter
    else Reduce(guessWords[1..], counter + Bit(guessWords[0].isValid))
  }

  /** `countValidWord`. */
  function CountValidWord(guessWords: seq<GuessWord>): (n: nat)
    ensures n <= |guessWords|
    ensures n == 0 <==> forall i :: 0 <= i < |guessWords| ==> !guessWords[i].isValid
  {
    Reduce(guessWords, 0)
  }

  /** The positions of the valid records: the reference the count is measured against. */
  ghost function ValidPositions(guessWords: seq<GuessWord>): set<nat>
  {
    set i: nat | i < |guessWords| && guessWords[i].isValid
  }

  /** The fold over one more record adds that record's bit. */
  lemma {:induction false} ReduceSnoc(guessWords: seq<GuessWord>, r: GuessWord, counter: nat)
    ensures Reduce(guessWords + [r], counter) == Reduce(guessWords, counter) + Bit(r.isValid)
    decreases |guessWords|
  {
    if guessWords != [] {
      assert (guessWords + [r])[1..] == guessWords[1..] + [r];
      ReduceSnoc(guessWords[1..], r, counter + Bit(guessWords[0].isValid));
    }
  }

  /** The empty sequence counts 0, and each appended record adds 1 exactly when it is valid. */
  lemma CountValidWordSnoc(guessWords: seq<GuessWord>, r: GuessWord)
    ensures CountValidWord([]) == 0
    ensures CountValidWord(guessWords + [r]) == CountValidWord(guessWords) + (if r.isValid then 1 else 0)
  {
    ReduceSnoc(guessWords, r, 0);
  }

  /** `countValidWord` is the number of records whose `isValid` is set. */
  lemma {:induction false} CountValidWordCountsValid(guessWords: seq<GuessWord>)
    ensures CountValidWord(guessWords) == |ValidPositions(guessWords)|
    decreases |guessWords|
  {
    if guessWords != [] {
      var front, last := guessWords[..|guessWords| - 1], guessWords[|guessWords| - 1];
      assert guessWords == front + [last];
      CountValidWordCountsValid(front);
      CountValidWordSnoc(front, last);
      if last.isValid {
        assert ValidPositions(guessWords) == ValidPositions(front) + {|front|};
      } else {
        assert ValidPositions(guessWords) == ValidPositions(front);
      }
    }
  }

  /** The count lies between 0 and the number of records; it is the number of records iff every guess was valid. */
  lemma CountValidWordBounds(guessWords: seq<GuessWord>)
    ensures 0 <= CountValidWord(guessWords) <= |guessWords|
    ensures CountValidWord(guessWords) == |guessWords| <==> forall i :: 0 <= i < |guessWords| ==> guessWords[i].isValid
    ensures CountValidWord(guessWords) == 0 <==> forall i :: 0 <= i < |guessWords| ==> !guessWords[i].isValid
  {
  }

  /** The score line as written: the count over `guessWords.length - 1`. */
  function ScoreLine(guessWords: seq<GuessWord>): (score: (nat, int))
    ensures score.1 == |guessWords| - 1
    ensures score.0 == CountValidWord(guessWords)
  {
    (CountValidWord(guessWords), |guessWords| - 1)
  }

  /** As written, a session of valid guesses scores more than the total shown, and no records show a total of -1. */
  lemma ScoreLineExceedsTotal(guessWords: seq<GuessWord>)
    requires |guessWords| > 0
    requires forall i :: 0 <= i < |guessWords| ==> guessWords[i].isValid
    ensures ScoreLine(guessWords).0 == ScoreLine(guessWords).1 + 1
    ensures ScoreLine([]).1 == -1
  {
  }

  /** The one-word session of the quiz: one valid guess is displayed as "1 / 0". */
  lemma ScoreLineOneOfZero(w: Word)
    ensures ScoreLine([GuessWord(true, "みず", w)]) == (1, 0)
  {
  }

  /** The score line with the number of records as its total. */
  function IntendedScoreLine(guessWords: seq<GuessWord>): (score: (nat, nat))
    ensures score.0 <= score.1 == |guessWords|
    ensures score.0 == score.1 <==> forall i :: 0 <= i < |guessWords| ==> guessWords[i].isValid
  {
    CountValidWordBounds(guessWords);
    (CountValidWord(guessWords), |guessWords|)
  }

  /** One row of the result table: Kanji, Guess, Answer, Found. */
  datatype Row = Row(kanji: Option<string>, guess: string, answer: string, found: bool)

  /** The table body: one row per record, in order; the Answer column is the kana. */
  function ResultTable(trainingType: string, guessWords: seq<GuessWord>): (rows: seq<Row>)
    ensures |rows| == |guessWords|
    ensures forall i :: 0 <= i < |rows| ==>
      rows[i] == Row(guessWords[i].word.kanji, guessWords[i].guess, guessWords[i].word.kana, guessWords[i].isValid)
  {
    seq(|guessWords|, i requires 0 <= i < |guessWords| =>
      var g := guessWords[i];
      Row(g.word.kanji, g.guess, g.word.kana, g.isValid))
  }

  /** The table does not depend on the training type. */
  lemma ResultTableIgnoresMode(t1: string, t2: string, guessWords: seq<GuessWord>)
    ensures ResultTable(t1, guessWords) == ResultTable(t2, guessWords)
  {
  }

  /** In kanji_to_traduction mode a valid guess can sit beside an Answer cell that differs from it. */
  lemma AnswerColumnIsNotTheExpectedAnswer()
    ensures
      var w := Word("1", "みず", Some("水"), "water", None, Some("water"), None);
      var v := Quizz.OnFormSubmit(Quizz.KanjiToTraduction, w, "water");
      var row := ResultTable(Quizz.KanjiToTraduction, [GuessWord(v.isValid, "water", v.word)])[0];
      row.found && row.answer != row.guess
  {
  }
}
