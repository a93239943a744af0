/** The entries of `st.session_state` that the core reads and writes: the
    API key, the five keys of a quiz run and the flashcard position. */
module SessionState {
  import opened Wrappers
  import opened Store

  /** `st.session_state.get("OPENAI_API_KEY", os.getenv("OPENAI_API_KEY"))`;
      the pages stop when this is empty or missing. */
  function ApiKeyFor(stored: Option<string>, env: Option<string>): (key: string)
    ensures stored.Some? ==> key == stored.value
    ensures stored.None? ==> key == env.GetOr("")
  {
    stored.GetOr(env.GetOr(""))
  }

  class Session {
    /** `OPENAI_API_KEY`. */
    var apiKey: Option<string>
    /** Whether the quiz keys are present (`"quiz_questions" in st.session_state`). */
    var quizStarted: bool
    var quizQuestions: seq<Question>
    var questionIndex: nat
    var score: nat
    var showAnswer: bool
    var selectedOption: Option<string>
    /** `flashcard_index`; absent reads as 0. */
    var flashcardIndex: Option<nat>

    /** A running quiz points at one of its questions (or at 0 of none). */
    predicate QuizValid()
      reads this
    {
      quizStarted ==> questionIndex < |quizQuestions| || (quizQuestions == [] && questionIndex == 0)
    }

    /** No quiz key is present. */
    predicate QuizCleared()
      reads this
    {
      !quizStarted && quizQuestions == [] && questionIndex == 0 && score == 0
      && !showAnswer && selectedOption == None
    }

    constructor ()
      ensures apiKey == None && QuizCleared() && QuizValid() && flashcardIndex == None
    {
      apiKey := None;
      quizStarted, quizQuestions, questionIndex, score := false, [], 0, 0;
      showAnswer, selectedOption := false, None;
      flashcardIndex := None;
    }

    /** Session set-up of the quiz page: only when no quiz is running, the
        shuffled questions, index 0, score 0, nothing revealed or selected.
        A running quiz is left as it is, even if the quiz file was just
        regenerated. */
    method StartQuizIfAbsent(shuffled: seq<Question>)
      requires QuizValid()
      modifies this
      ensures QuizValid() && quizStarted
      ensures old(quizStarted) ==> unchanged(this)
      ensures !old(quizStarted) ==>
        && quizQuestions == shuffled && questionIndex == 0 && score == 0
        && !showAnswer && selectedOption == None
      ensures apiKey == old(apiKey) && flashcardIndex == old(flashcardIndex)
    {
      if !quizStarted {
        quizStarted := true;
        quizQuestions := shuffled;
        questionIndex := 0;
        score := 0;
        showAnswer := false;
        selectedOption := None;
      }
    }

    /** "Submit": records the choice, reveals the answer and scores one
        point when the choice is the answer. Nothing stops a second submit
        of the same question from scoring again. */
    method Submit(choice: string)
      requires QuizValid() && quizStarted && questionIndex < |quizQuestions|
      modifies this
      ensures QuizValid() && quizStarted
      ensures selectedOption == Some(choice) && showAnswer
      ensures score == old(score) + (if choice == old(quizQuestions[questionIndex]).answer then 1 else 0)
      ensures quizQuestions == old(quizQuestions) && questionIndex == old(questionIndex)
      ensures apiKey == old(apiKey) && flashcardIndex == old(flashcardIndex)
    {
      selectedOption := Some(choice);
      showAnswer := true;
      if choice == quizQuestions[questionIndex].answer {
        score := score + 1;
      }
    }

    /** "Show Answer": reveals the answer and changes nothing else. */
    method RevealAnswer()
      requires QuizValid()
      modifies this`showAnswer
      ensures QuizValid() && showAnswer
    {
      showAnswer := true;
    }

    /** "Next Question", offered only while `index + 1 < len(quiz_questions)`;
        it does not ask for an answer first. */
    method NextQuestion()
      requires QuizValid() && quizStarted
      modifies this
      ensures QuizValid() && quizStarted
      ensures old(questionIndex) + 1 < |old(quizQuestions)| ==>
        && questionIndex == old(questionIndex) + 1
        && selectedOption == None && !showAnswer
        && quizQuestions == old(quizQuestions) && score == old(score)
        && apiKey == old(apiKey) && flashcardIndex == old(flashcardIndex)
      ensures old(questionIndex) + 1 >= |old(quizQuestions)| ==> unchanged(this)
    {
      if questionIndex + 1 < |quizQuestions| {
        questionIndex := questionIndex + 1;
        selectedOption := None;
        showAnswer := false;
      }
    }

    /** "Restart Quiz", offered on the last question: removes the five quiz
        keys so that the next run sets the quiz up afresh. */
    method RestartQuiz()
      requires QuizValid() && quizStarted
      modifies this
      ensures QuizValid()
      ensures old(questionIndex) + 1 >= |old(quizQuestions)| ==>
        QuizCleared() && apiKey == old(apiKey) && flashcardIndex == old(flashcardIndex)
      ensures old(questionIndex) + 1 < |old(quizQuestions)| ==> unchanged(this)
    {
      if questionIndex + 1 >= |quizQuestions| {
        quizStarted, quizQuestions, questionIndex, score := false, [], 0, 0;
        showAnswer, selectedOption := false, None;
      }
    }

    /** "Previous" on the flashcard page: steps back unless at the first card. */
    method PreviousCard()
      modifies this`flashcardIndex
      ensures var i := old(flashcardIndex).GetOr(0);
        flashcardIndex == if i > 0 then Some(i - 1) else old(flashcardIndex)
    {
      var i := flashcardIndex.GetOr(0);
      if i > 0 {
        flashcardIndex := Some(i - 1);
      }
    }

    /** "Next" on the flashcard page: steps on unless at the last of `count`
        cards, so an index that names a card keeps naming one. */
    method NextCard(count: nat)
      modifies this`flashcardIndex
      ensures var i := old(flashcardIndex).GetOr(0);
        flashcardIndex == if i + 1 < count then Some(i + 1) else old(flashcardIndex)
      ensures old(flashcardIndex).GetOr(0) < count ==> flashcardIndex.GetOr(0) < count
    {
      var i := flashcardIndex.GetOr(0);
      if i < count - 1 {
        flashcardIndex := Some(i + 1);
      }
    }

    /** "Back to Content" on the flashcard page forgets the position. */
    method LeaveFlashcards()
      modifies this`flashcardIndex
      ensures flashcardIndex == None
    {
      flashcardIndex := None;
    }
  }

  /** The scoring is not bounded by the number of questions: on a one-question
      quiz, submitting the right answer twice scores 2. */
  method RepeatedSubmitScoresTwice() returns (score: nat, total: nat)
    ensures total == 1 && score == 2
  {
    var s := new Session();
    var q := Question("2 + 2?", ["3", "4", "5", "6"], "4");
    s.StartQuizIfAbsent([q]);
    s.Submit("4");
    s.Submit("4");
    score, total := s.score, |s.quizQuestions|;
  }

  /** "Next Question" moves on without an answer: no point is scored and the
      next question starts unrevealed. */
  method NextWithoutAnswer() returns (index: nat, score: nat, revealed: bool)
    ensures index == 1 && score == 0 && !revealed
  {
    var s := new Session();
    var q1 := Question("a?", ["x", "y"], "x");
    var q2 := Question("b?", ["x", "y"], "y");
    s.StartQuizIfAbsent([q1, q2]);
    s.NextQuestion();
    index, score, revealed := s.questionIndex, s.score, s.showAnswer;
  }
}
