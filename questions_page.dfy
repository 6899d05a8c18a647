/** The daily-question page (`pages/Questions.tsx`): today's question with its
    fallback, both partners' answers to it, and sharing or changing one's own
    answer. The `questions` and `answers` tables are passed in as sequences of
    rows; a write returns the new `answers` table. */
module QuestionsPage {
  import opened Wrappers
  import opened Text
  import opened Tables
  import opened SpaceContext

  /** A row of the `questions` table; `date` is "yyyy-MM-dd". */
  datatype Question = Question(id: string, questionText: string, category: string, date: string)

  /** A row of the `answers` table. */
  datatype Answer = Answer(id: string, questionId: string, userName: string, answerText: string,
                           createdAt: int)

  function OnDate(today: string): Question -> bool {
    (q: Question) => q.date == today
  }

  function ForQuestion(questionId: string): Answer -> bool {
    (a: Answer) => a.questionId == questionId
  }

  function ByUser(name: string): Answer -> bool {
    (a: Answer) => a.userName == name
  }

  /** The answers of one user to one question. */
  function AnswersOf(table: seq<Answer>, questionId: string, name: string): seq<Answer> {
    Filter(table, (a: Answer) => a.questionId == questionId && a.userName == name)
  }

  /** `loadTodaysQuestion`'s choice: `.eq('date', today).single()` succeeds only
      when exactly one question has today's date; on its error the first row of
      an unfiltered `.limit(1).single()` is used, if the table has any. */
  function TodaysQuestion(questions: seq<Question>, today: string): Option<Question> {
    var todays := Filter(questions, OnDate(today));
    if |todays| == 1 then Some(todays[0])
    else if questions != [] then Some(questions[0])
    else None
  }

  /** The unique question of the day wins; without one the first question
      is used; only an empty table gives none. */
  lemma TodaysQuestionSpec(questions: seq<Question>, today: string)
    ensures |Filter(questions, OnDate(today))| == 1 ==>
              var q := TodaysQuestion(questions, today);
              q.Some? && q.value in questions && q.value.date == today
    ensures |Filter(questions, OnDate(today))| != 1 && questions != [] ==>
              TodaysQuestion(questions, today) == Some(questions[0])
    ensures TodaysQuestion(questions, today).None? <==> questions == []
  {
    FilterSpec(questions, OnDate(today));
    var todays := Filter(questions, OnDate(today));
    if |todays| == 1 {
      assert todays[0] in todays;
    }
  }

  /** A day with no question of its own shows the first question of the table. */
  lemma NoQuestionTodayFallsBack(questions: seq<Question>, today: string)
    requires questions != []
    requires forall q :: q in questions ==> q.date != today
    ensures TodaysQuestion(questions, today) == Some(questions[0])
  {
    FilterEmptyIff(questions, OnDate(today));
  }

  /** `.range(offset, offset).single()`: the row at `offset`, if there is one. */
  function QuestionAt(questions: seq<Question>, offset: nat): (r: Option<Question>)
    ensures r.Some? <==> offset < |questions|
    ensures r.Some? ==> r.value == questions[offset]
  {
    if offset < |questions| then Some(questions[offset]) else None
  }

  /** The `answer_text` update by id: every row with that id gets the new text,
      all other rows are kept as they are. */
  function UpdateText(table: seq<Answer>, id: string, text: string): seq<Answer> {
    if table == [] then []
    else [if table[0].id == id then table[0].(answerText := text) else table[0]]
         + UpdateText(table[1..], id, text)
  }

  /** The update keeps the table's length, touches only rows with that id,
      and changes nothing there but the text. */
  lemma {:induction false} UpdateTextSpec(table: seq<Answer>, id: string, text: string)
    ensures |UpdateText(table, id, text)| == |table|
    ensures forall i :: 0 <= i < |table| ==>
              UpdateText(table, id, text)[i] ==
                if table[i].id == id then table[i].(answerText := text) else table[i]
  {
    if table != [] {
      UpdateTextSpec(table[1..], id, text);
    }
  }

  /** An update by an id that no earlier row carries only rewrites the last row. */
  lemma UpdateLastRow(table: seq<Answer>, a: Answer, text: string)
    requires forall x :: x in table ==> x.id != a.id
    ensures UpdateText(table + [a], a.id, text) == table + [a.(answerText := text)]
  {
    UpdateTextSpec(table + [a], a.id, text);
    var u := UpdateText(table + [a], a.id, text);
    forall i | 0 <= i < |table| ensures u[i] == table[i] {
      assert (table + [a])[i] == table[i];
      assert table[i] in table;
    }
  }

  /** The row `handleSubmit` inserts when the user has no answer yet. */
  function NewAnswer(questionId: string, name: string, text: string, id: string, now: int): (a: Answer)
    ensures a.questionId == questionId && a.userName == name && a.answerText == text
  {
    Answer(id, questionId, name, text, now)
  }

  /** The answers table after a successful `handleSubmit`: the user's answer
      as last loaded is updated by id, or else one answer is inserted. */
  function SubmitAnswer(table: seq<Answer>, questionId: string, name: string, mine: Option<Answer>,
                        text: string, id: string, now: int): seq<Answer> {
    if mine.Some? then UpdateText(table, mine.value.id, text)
    else table + [NewAnswer(questionId, name, text, id, now)]
  }

  /** What `loadAnswers` takes as this user's answer to a question. */
  function MyAnswer(table: seq<Answer>, questionId: string, name: string): Option<Answer> {
    First(Filter(table, ForQuestion(questionId)), ByUser(name))
  }

  /** `loadAnswers` finds an answer of this user to this question, and one
      exactly when there is one. */
  lemma MyAnswerSpec(table: seq<Answer>, questionId: string, name: string)
    ensures var mine := MyAnswer(table, questionId, name);
            && (mine.Some? ==> mine.value in table && mine.value.questionId == questionId
                               && mine.value.userName == name)
            && (mine.None? <==> AnswersOf(table, questionId, name) == [])
  {
    var rows := Filter(table, ForQuestion(questionId));
    var mineP := (a: Answer) => a.questionId == questionId && a.userName == name;
    FilterSpec(table, ForQuestion(questionId));
    FilterSpec(table, mineP);
    FirstSpec(rows, ByUser(name));
    FilterEmptyIff(table, mineP);
  }

  /** Submitting twice to the same question, with the reload in between,
      leaves one answer of this user: the first submit's row with the second
      text. */
  lemma SecondSubmitUpdatesFirst(table: seq<Answer>, questionId: string, name: string,
                                 text1: string, id1: string, now1: int,
                                 text2: string, id2: string, now2: int)
    requires AnswersOf(table, questionId, name) == []
    requires forall x :: x in table ==> x.id != id1
    ensures var t1 := SubmitAnswer(table, questionId, name, None, text1, id1, now1);
            var t2 := SubmitAnswer(t1, questionId, name, MyAnswer(t1, questionId, name), text2, id2, now2);
            AnswersOf(t2, questionId, name) == [Answer(id1, questionId, name, text2, now1)]
  {
    var a1 := NewAnswer(questionId, name, text1, id1, now1);
    var t1 := table + [a1];
    var mineP := (a: Answer) => a.questionId == questionId && a.userName == name;
    var rows := Filter(table, ForQuestion(questionId));
    FilterAppend(table, a1, ForQuestion(questionId));
    FilterSpec(table, ForQuestion(questionId));
    FilterSpec(table, mineP);
    forall j | 0 <= j < |rows| ensures !ByUser(name)(rows[j]) {
      assert rows[j] in rows;
      if rows[j].userName == name {
        assert rows[j] in AnswersOf(table, questionId, name);
      }
    }
    FirstIsEarliest(rows + [a1], ByUser(name), |rows|);
    assert MyAnswer(t1, questionId, name) == Some(a1);
    UpdateLastRow(table, a1, text2);
    FilterAppend(table, a1.(answerText := text2), mineP);
  }

  class QuestionsPage {
    var currentQuestion: Option<Question>
    /** The answer being written. */
    var answer: string
    var partnerAnswer: Option<Answer>
    var myAnswer: Option<Answer>

    constructor ()
      ensures currentQuestion.None? && answer == "" && partnerAnswer.None? && myAnswer.None?
    {
      currentQuestion := None;
      answer := "";
      partnerAnswer := None;
      myAnswer := None;
    }

    /** `loadAnswers`: this user's and the partner's first answer to the
        question; the draft becomes this user's text, or "" without one. A
        failed read changes nothing. */
    method LoadAnswers(space: Option<Space>, questionId: string, table: seq<Answer>, readFails: bool)
      modifies this`myAnswer, this`partnerAnswer, this`answer
      ensures readFails ==> myAnswer == old(myAnswer) && partnerAnswer == old(partnerAnswer)
                            && answer == old(answer)
      ensures !readFails ==>
                myAnswer == MyAnswer(table, questionId, DisplayName(space))
                && partnerAnswer == MyAnswer(table, questionId, PartnerName(space))
                && answer == (if myAnswer.Some? then myAnswer.value.answerText else "")
    {
      if !readFails {
        var rows := Filter(table, ForQuestion(questionId));
        var myAns := First(rows, ByUser(DisplayName(space)));
        var partnerAns := First(rows, ByUser(PartnerName(space)));
        if myAns.Some? {
          myAnswer := myAns;
          answer := myAns.value.answerText;
        } else {
          myAnswer := None;
          answer := "";
        }
        partnerAnswer := partnerAns;
      }
    }

    /** Shows `q`, if any, and loads its answers (a failed read of the
        answers keeps the ones shown). */
    method ShowQuestion(space: Option<Space>, q: Option<Question>, answers: seq<Answer>,
                        answersFail: bool)
      modifies this`currentQuestion, this`myAnswer, this`partnerAnswer, this`answer
      ensures q.None? ==> currentQuestion == old(currentQuestion)
      ensures q.None? || answersFail ==>
                myAnswer == old(myAnswer) && partnerAnswer == old(partnerAnswer) && answer == old(answer)
      ensures q.Some? ==> currentQuestion == q
      ensures q.Some? && !answersFail ==>
                myAnswer == MyAnswer(answers, q.value.id, DisplayName(space))
                && partnerAnswer == MyAnswer(answers, q.value.id, PartnerName(space))
                && answer == (if myAnswer.Some? then myAnswer.value.answerText else "")
    {
      if q.Some? {
        currentQuestion := q;
        LoadAnswers(space, q.value.id, answers, answersFail);
      }
    }

    /** `loadTodaysQuestion`: shows today's question, or the fallback, with
        its answers; an empty table changes nothing. When the date query
        itself fails (`dateFails`), the first row is shown even if today has
        a question of its own. */
    method LoadTodaysQuestion(space: Option<Space>, questions: seq<Question>, today: string,
                              dateFails: bool, answers: seq<Answer>, answersFail: bool)
      modifies this`currentQuestion, this`myAnswer, this`partnerAnswer, this`answer
      ensures questions != [] && !dateFails ==> currentQuestion == TodaysQuestion(questions, today)
      ensures questions != [] && dateFails ==> currentQuestion == Some(questions[0])
      ensures questions == [] ==> currentQuestion == old(currentQuestion)
      ensures questions == [] || answersFail ==>
                myAnswer == old(myAnswer) && partnerAnswer == old(partnerAnswer) && answer == old(answer)
      ensures questions != [] && !answersFail ==>
                currentQuestion.Some?
                && myAnswer == MyAnswer(answers, currentQuestion.value.id, DisplayName(space))
                && partnerAnswer == MyAnswer(answers, currentQuestion.value.id, PartnerName(space))
                && answer == (if myAnswer.Some? then myAnswer.value.answerText else "")
    {
      TodaysQuestionSpec(questions, today);
      var q := if dateFails then QuestionAt(questions, 0) else TodaysQuestion(questions, today);
      ShowQuestion(space, q, answers, answersFail);
    }

    /** `getNewQuestion`: the question at the drawn offset (the random draw
        is the parameter) with its answers; an offset past the table changes
        nothing. */
    method GetNewQuestion(space: Option<Space>, questions: seq<Question>, offset: nat,
                          answers: seq<Answer>, answersFail: bool)
      modifies this`currentQuestion, this`myAnswer, this`partnerAnswer, this`answer
      ensures offset < |questions| ==> currentQuestion == Some(questions[offset])
      ensures offset >= |questions| ==> currentQuestion == old(currentQuestion)
      ensures offset >= |questions| || answersFail ==>
                myAnswer == old(myAnswer) && partnerAnswer == old(partnerAnswer) && answer == old(answer)
      ensures offset < |questions| && !answersFail ==>
                myAnswer == MyAnswer(answers, questions[offset].id, DisplayName(space))
                && partnerAnswer == MyAnswer(answers, questions[offset].id, PartnerName(space))
                && answer == (if myAnswer.Some? then myAnswer.value.answerText else "")
    {
      if |questions| > 0 {
        ShowQuestion(space, QuestionAt(questions, offset), answers, answersFail);
      }
    }

    /** `handleSubmit`: nothing happens for a blank answer, without a space
        or without a question. Otherwise the answer is written untrimmed,
        updating this user's loaded answer or inserting a new one, and the
        answers are reloaded (a failed reload keeps the ones shown); a failed
        write changes nothing. */
    method HandleSubmit(space: Option<Space>, table: seq<Answer>, id: string, now: int,
                        writeFails: bool, reloadFails: bool) returns (table': seq<Answer>)
      modifies this`myAnswer, this`partnerAnswer, this`answer
      ensures IsBlank(old(answer)) || space.None? || currentQuestion.None? || writeFails ==>
                table' == table
      ensures IsBlank(old(answer)) || space.None? || currentQuestion.None? || writeFails || reloadFails ==>
                myAnswer == old(myAnswer) && partnerAnswer == old(partnerAnswer) && answer == old(answer)
      ensures !IsBlank(old(answer)) && space.Some? && currentQuestion.Some? && !writeFails ==>
                table' == SubmitAnswer(table, currentQuestion.value.id, DisplayName(space),
                                       old(myAnswer), old(answer), id, now)
      ensures !IsBlank(old(answer)) && space.Some? && currentQuestion.Some? && !writeFails && !reloadFails ==>
                myAnswer == MyAnswer(table', currentQuestion.value.id, DisplayName(space))
                && partnerAnswer == MyAnswer(table', currentQuestion.value.id, PartnerName(space))
                && answer == (if myAnswer.Some? then myAnswer.value.answerText else "")
    {
      table' := table;
      if Trim(answer) != [] && space.Some? && currentQuestion.Some? && !writeFails {
        var q := currentQuestion.value;
        if myAnswer.Some? {
          table' := UpdateText(table, myAnswer.value.id, answer);
        } else {
          table' := table + [NewAnswer(q.id, DisplayName(space), answer, id, now)];
        }
        LoadAnswers(space, q.id, table', reloadFails);
      }
    }
  }
}
