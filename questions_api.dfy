/** The daily question endpoints (`backend/routers/questions.py`): one
    question per date drawn from a fixed pool, one answer per user and
    question that a second submission overwrites, and the couple's answers.
    The seeded random choice is a parameter: the index into the pool. */
module QuestionsApi {
  import opened Wrappers
  import opened Tables
  import opened Calendar
  import opened IsoDates
  import opened Database

  datatype PoolEntry = PoolEntry(text: string, category: string)

  const QuestionsPool: seq<PoolEntry> := [
    PoolEntry("What's your favorite memory of us together?", "memories"),
    PoolEntry("What makes you smile when you think of me?", "feelings"),
    PoolEntry("If we could travel anywhere together, where would it be?", "dreams"),
    PoolEntry("What's one thing you appreciate about our relationship?", "appreciation"),
    PoolEntry("What song reminds you of us?", "music"),
    PoolEntry("What's your favorite thing we do together?", "activities"),
    PoolEntry("How do you feel loved by me?", "love_language"),
    PoolEntry("What's something new you'd like us to try together?", "adventure"),
    PoolEntry("What was your first impression of me?", "memories"),
    PoolEntry("What's your favorite physical feature of mine?", "attraction"),
    PoolEntry("What do you think makes our relationship special?", "relationship"),
    PoolEntry("What's a goal you have for us as a couple?", "future"),
    PoolEntry("What's the sweetest thing I've ever done for you?", "appreciation"),
    PoolEntry("What's your favorite way to spend time together?", "quality_time"),
    PoolEntry("What's one thing you want me to know but haven't told me?", "communication")
  ]

  const AnswerLimit: nat := 10

  function QuestionDate(q: Question): string { q.date }

  /** The question of a date, once `get_daily_question` has created it. */
  lemma QuestionOfTheDay(questions: seq<Question>, q: Question)
    requires forall x :: x in questions ==> x.date != q.date
    ensures First(questions + [q], KeyIs(QuestionDate, q.date)) == Some(q)
  {
    var all := questions + [q];
    forall j | 0 <= j < |questions| ensures !KeyIs(QuestionDate, q.date)(all[j]) {
      assert all[j] in questions && QuestionDate(all[j]) != q.date;
    }
    FirstIsEarliest(all, KeyIs(QuestionDate, q.date), |questions|);
  }

  /** `get_daily_question`: today's stored question if there is one, and no
      change; otherwise the chosen pool entry is stored for today. Either
      way the answer is the question every later call of the day finds. */
  method GetDailyQuestion(db: Db, today: Date, choice: nat, id: string) returns (q: Question)
    requires PyDate(today) && choice < |QuestionsPool|
    modifies db`questions
    ensures q.date == IsoFormat(today)
    ensures First(db.questions, KeyIs(QuestionDate, IsoFormat(today))) == Some(q)
    ensures (exists x :: x in old(db.questions) && x.date == IsoFormat(today)) ==>
              db.questions == old(db.questions) && q in old(db.questions)
    ensures (forall x :: x in old(db.questions) ==> x.date != IsoFormat(today)) ==>
              db.questions == old(db.questions) + [q]
              && q == Question(id, QuestionsPool[choice].text, QuestionsPool[choice].category, IsoFormat(today))
  {
    var date := IsoFormat(today);
    var existing := First(db.questions, KeyIs(QuestionDate, date));
    FirstSpec(db.questions, KeyIs(QuestionDate, date));
    if existing.Some? {
      assert QuestionDate(existing.value) == date;
      return existing.value;
    }
    var entry := QuestionsPool[choice];
    q := Question(id, entry.text, entry.category, date);
    QuestionOfTheDay(db.questions, q);
    db.questions := db.questions + [q];
  }

  // ---------------------------------------------------------------------
  // Answers

  /** The key `submit_answer` looks an answer up by. */
  function AnswerOwner(a: Answer): (string, string) { (a.questionId, a.userId) }

  function WithText(text: string): Answer -> Answer {
    (a: Answer) => a.(answerText := text)
  }

  /** The answers table after `submit_answer`: the user's earlier answer to
      the question gets the new text (`update_one` by its id), or a new
      answer attributed to the user is added. */
  function SubmitTable(answers: seq<Answer>, questionId: string, text: string, current: CurrentUser,
                       id: string, now: int): seq<Answer>
  {
    match First(answers, KeyIs(AnswerOwner, (questionId, current.id)))
    case Some(existing) => UpdateFirst(answers, KeyIs(AnswerId, existing.id), WithText(text))
    case None => answers + [Answer(id, questionId, current.id, current.username, current.role, text, now)]
  }

  /** Submitting keeps at most one answer per user and question. */
  lemma SubmitKeepsOneAnswerEach(answers: seq<Answer>, questionId: string, text: string,
                                 current: CurrentUser, id: string, now: int)
    requires UniqueKeys(answers, AnswerOwner)
    ensures UniqueKeys(SubmitTable(answers, questionId, text, current, id, now), AnswerOwner)
  {
    var key := (questionId, current.id);
    FirstSpec(answers, KeyIs(AnswerOwner, key));
    var r := SubmitTable(answers, questionId, text, current, id, now);
    match First(answers, KeyIs(AnswerOwner, key))
    case Some(existing) =>
      FirstIndexSpec(answers, KeyIs(AnswerId, existing.id));
      assert forall i :: 0 <= i < |r| ==> AnswerOwner(r[i]) == AnswerOwner(answers[i]);
    case None =>
      var a := Answer(id, questionId, current.id, current.username, current.role, text, now);
      forall i, j | 0 <= i < j < |r| ensures AnswerOwner(r[i]) != AnswerOwner(r[j]) {
        assert r[i] == answers[i];
        if j < |answers| {
          assert r[j] == answers[j];
        } else {
          assert r[j] == a && answers[i] in answers;
        }
      }
  }

  /** With unique ids, after a submission the user's answer to the question
      carries the submitted text, and a resubmission keeps the answer's id. */
  lemma SubmitRecordsText(answers: seq<Answer>, questionId: string, text: string,
                          current: CurrentUser, id: string, now: int)
    requires UniqueKeys(answers, AnswerId)
    ensures var mine := First(SubmitTable(answers, questionId, text, current, id, now),
                              KeyIs(AnswerOwner, (questionId, current.id)));
            && mine.Some? && mine.value.answerText == text
            && mine.value.questionId == questionId && mine.value.userId == current.id
            && match First(answers, KeyIs(AnswerOwner, (questionId, current.id)))
               case Some(earlier) => mine.value.id == earlier.id
               case None => mine.value.id == id
  {
    var key := (questionId, current.id);
    var r := SubmitTable(answers, questionId, text, current, id, now);
    FirstIndexSpec(answers, KeyIs(AnswerOwner, key));
    match FirstIndex(answers, KeyIs(AnswerOwner, key))
    case Some(k) =>
      var existing := answers[k];
      UpdateByUniqueKey(answers, AnswerId, existing.id, WithText(text));
      forall j | 0 <= j < k ensures !KeyIs(AnswerOwner, key)(r[j]) {
        assert answers[j].id != existing.id;
        assert r[j] == answers[j];
      }
      assert r[k] == existing.(answerText := text);
      FirstIsEarliest(r, KeyIs(AnswerOwner, key), k);
    case None =>
      var a := Answer(id, questionId, current.id, current.username, current.role, text, now);
      forall j | 0 <= j < |answers| ensures !KeyIs(AnswerOwner, key)(r[j]) {
        assert r[j] == answers[j];
      }
      FirstIsEarliest(r, KeyIs(AnswerOwner, key), |answers|);
  }

  /** `submit_answer`: the answer as stored after the upsert. */
  method SubmitAnswer(db: Db, questionId: string, text: string, current: CurrentUser, id: string, now: int)
    returns (r: Answer)
    modifies db`answers
    ensures db.answers == SubmitTable(old(db.answers), questionId, text, current, id, now)
    ensures r.questionId == questionId && r.userId == current.id && r.answerText == text
    ensures match First(old(db.answers), KeyIs(AnswerOwner, (questionId, current.id)))
            case Some(existing) => r == existing.(answerText := text)
            case None => r == Answer(id, questionId, current.id, current.username, current.role, text, now)
    ensures UniqueKeys(old(db.answers), AnswerOwner) ==> UniqueKeys(db.answers, AnswerOwner)
  {
    if UniqueKeys(db.answers, AnswerOwner) {
      SubmitKeepsOneAnswerEach(db.answers, questionId, text, current, id, now);
    }
    var existing := First(db.answers, KeyIs(AnswerOwner, (questionId, current.id)));
    FirstSpec(db.answers, KeyIs(AnswerOwner, (questionId, current.id)));
    if existing.Some? {
      assert AnswerOwner(existing.value) == (questionId, current.id);
      db.answers := UpdateFirst(db.answers, KeyIs(AnswerId, existing.value.id), WithText(text));
      return existing.value.(answerText := text);
    }
    r := Answer(id, questionId, current.id, current.username, current.role, text, now);
    db.answers := db.answers + [r];
  }

  /** The answers `get_answers` asks for: to the question, by the user or the partner. */
  function CoupleAnswer(questionId: string, current: CurrentUser): Answer -> bool {
    (a: Answer) => a.questionId == questionId && OfCouple(current, a.userId)
  }

  /** Three answers of a couple to one question cannot have three
      different owners: there are only the user and the partner. */
  lemma CoupleOwnersCollide(f: seq<Answer>, questionId: string, current: CurrentUser)
    ensures |f| > 2 && (forall i :: 0 <= i < |f| ==> CoupleAnswer(questionId, current)(f[i])) ==>
              AnswerOwner(f[0]) == AnswerOwner(f[1]) || AnswerOwner(f[0]) == AnswerOwner(f[2])
              || AnswerOwner(f[1]) == AnswerOwner(f[2])
  {
    if |f| > 2 && forall i :: 0 <= i < |f| ==> CoupleAnswer(questionId, current)(f[i]) {
      assert CoupleAnswer(questionId, current)(f[0]);
      assert CoupleAnswer(questionId, current)(f[1]);
      assert CoupleAnswer(questionId, current)(f[2]);
    }
  }

  /** With one answer per user and question, a couple has at most two
      answers to a question, so the limit of ten never cuts any. */
  lemma CoupleAnswersAtMostTwo(answers: seq<Answer>, questionId: string, current: CurrentUser)
    requires UniqueKeys(answers, AnswerOwner)
    ensures |Filter(answers, CoupleAnswer(questionId, current))| <= 2
  {
    var f := Filter(answers, CoupleAnswer(questionId, current));
    FilterKeepsUniqueKeys(answers, AnswerOwner, CoupleAnswer(questionId, current));
    FilterSpec(answers, CoupleAnswer(questionId, current));
    CoupleOwnersCollide(f, questionId, current);
    if |f| > 2 {
      assert false;
    }
  }

  /** `get_answers`: the answers to the question by the user or the partner,
      in stored order, at most ten; with one answer per user and question,
      every such answer. */
  method GetAnswers(db: Db, questionId: string, current: CurrentUser) returns (r: seq<Answer>)
    ensures |r| <= AnswerLimit
    ensures forall a :: a in r ==> a in db.answers && a.questionId == questionId && OfCouple(current, a.userId)
    ensures UniqueKeys(db.answers, AnswerOwner) ==>
              |r| <= 2
              && forall a :: a in db.answers && a.questionId == questionId && OfCouple(current, a.userId) ==> a in r
    ensures UniqueKeys(db.answers, AnswerOwner) ==> r == Filter(db.answers, CoupleAnswer(questionId, current))
  {
    var matching := Filter(db.answers, CoupleAnswer(questionId, current));
    FilterSpec(db.answers, CoupleAnswer(questionId, current));
    r := Take(matching, AnswerLimit);
    TakeSpec(matching, AnswerLimit);
    forall a | a in r ensures a in matching {
      var i :| 0 <= i < |r| && r[i] == a;
      assert matching[i] == a;
    }
    if UniqueKeys(db.answers, AnswerOwner) {
      CoupleAnswersAtMostTwo(db.answers, questionId, current);
      assert r == matching;
    }
  }
}
