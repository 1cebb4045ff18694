/**
 * The quiz repositories: inserting a batch of questions, turning the rows of the
 * quiz ⟕ question join into quizzes with their questions, and the partial update of a
 * question.
 */
module Quizzes {
  import opened Wrappers
  import opened Grouping
  import opened SqlUpdate

  datatype QuizQuestion = QuizQuestion(
    id: Option<int>,
    quizId: int,
    question: string,
    answer: string,
    explanation: Option<string>,
    createdAt: Timestamp,
    updatedAt: Timestamp)

  datatype Quiz = Quiz(
    id: int,
    userId: int,
    title: Option<string>,
    createdAt: Timestamp,
    updatedAt: Timestamp,
    questions: seq<QuizQuestion>)

  datatype QuizQuestionCreate = QuizQuestionCreate(question: string, answer: string, explanation: Option<string>)

  /**
   * One row of the quiz ⟕ question join. `questionId` is None for a quiz without
   * questions; the other question columns of such a row are never read.
   */
  datatype QuizRow = QuizRow(
    quizId: int,
    quizUserId: int,
    quizTitle: Option<string>,
    quizCreatedAt: Timestamp,
    quizUpdatedAt: Timestamp,
    questionId: Option<int>,
    question: string,
    answer: string,
    explanation: Option<string>,
    questionCreatedAt: Timestamp,
    questionUpdatedAt: Timestamp)

  /**
   * The question-insert statement, as a function of how many inserts ran before it
   * (standing for the table's state) and the inserted values.
   */
  type InsertOracle = (nat, int, QuizQuestionCreate) -> QuizQuestion

  /** `insert_many`: one insert per datum, in order, collecting the returned questions. */
  method InsertMany(quizId: int, data: seq<QuizQuestionCreate>, insert: InsertOracle) returns (result: seq<QuizQuestion>)
    ensures |result| == |data|
    ensures forall i :: 0 <= i < |data| ==> result[i] == insert(i, quizId, data[i])
  {
    result := [];
    var i := 0;
    while i < |data|
      invariant 0 <= i <= |data|
      invariant |result| == i
      invariant forall j :: 0 <= j < i ==> result[j] == insert(j, quizId, data[j])
    {
      result := result + [insert(i, quizId, data[i])];
      i := i + 1;
    }
  }

  function QuestionOf(row: QuizRow): QuizQuestion {
    QuizQuestion(row.questionId, row.quizId, row.question, row.answer, row.explanation,
                 row.questionCreatedAt, row.questionUpdatedAt)
  }

  function QuizOf(row: QuizRow, questions: seq<QuizQuestion>): Quiz {
    Quiz(row.quizId, row.quizUserId, row.quizTitle, row.quizCreatedAt, row.quizUpdatedAt, questions)
  }

  /**
   * `get`: None for no rows; otherwise the quiz columns of the first row, and one
   * question per row when the first row has a question, none otherwise.
   */
  function Get(rows: seq<QuizRow>): (r: Option<Quiz>)
    ensures r.None? <==> |rows| == 0
    ensures r.Some? ==> r.value == QuizOf(rows[0], r.value.questions)
    ensures r.Some? && rows[0].questionId.Some? ==>
              |r.value.questions| == |rows| && forall i :: 0 <= i < |rows| ==> r.value.questions[i] == QuestionOf(rows[i])
    ensures r.Some? && rows[0].questionId.None? ==> r.value.questions == []
  {
    if |rows| == 0 then None
    else
      var row := rows[0];
      Some(QuizOf(row, if row.questionId.Some? then seq(|rows|, i requires 0 <= i < |rows| => QuestionOf(rows[i])) else []))
  }

  function QuizKey(row: QuizRow): int {
    row.quizId
  }

  /** The questions of the rows that have one, in row order. */
  function QuestionsIn(rows: seq<QuizRow>): (r: seq<QuizQuestion>)
    ensures |r| <= |rows|
    ensures forall q :: q in r ==> q.id.Some?
  {
    if |rows| == 0 then []
    else
      var row := rows[|rows| - 1];
      QuestionsIn(rows[..|rows| - 1]) + (if row.questionId.Some? then [QuestionOf(row)] else [])
  }

  /**
   * One pass of the `list_by_user` loop: the first row of a quiz creates it from its
   * own columns, and a row with a question appends it to its own quiz.
   */
  function AddQuizRow(quizzes: seq<Quiz>, row: QuizRow): seq<Quiz> {
    var i := IndexOfQuiz(quizzes, row.quizId);
    var quiz := if i < |quizzes| then quizzes[i] else QuizOf(row, []);
    var quiz' := if row.questionId.Some? then quiz.(questions := quiz.questions + [QuestionOf(row)]) else quiz;
    if i < |quizzes| then quizzes[i := quiz'] else quizzes + [quiz']
  }

  function IndexOfQuiz(quizzes: seq<Quiz>, id: int): (i: nat)
    ensures i <= |quizzes|
    ensures i < |quizzes| ==> quizzes[i].id == id && forall j :: 0 <= j < i ==> quizzes[j].id != id
    ensures i == |quizzes| ==> forall j :: 0 <= j < |quizzes| ==> quizzes[j].id != id
  {
    if |quizzes| == 0 then 0 else if quizzes[0].id == id then 0 else 1 + IndexOfQuiz(quizzes[1..], id)
  }

  /** `list_by_user`: the dictionary's values after every row, in insertion order. */
  function ListByUser(rows: seq<QuizRow>): seq<Quiz> {
    if |rows| == 0 then [] else AddQuizRow(ListByUser(rows[..|rows| - 1]), rows[|rows| - 1])
  }

  /** The quiz a group of rows describes, per the reference grouping. */
  function QuizOfGroup(g: Group<int, QuizRow>): Quiz
    requires |g.rows| > 0
  {
    QuizOf(g.rows[0], QuestionsIn(g.rows))
  }

  predicate NonEmptyGroups(gs: seq<Group<int, QuizRow>>) {
    forall i :: 0 <= i < |gs| ==> |gs[i].rows| > 0
  }

  /**
   * The loop builds, group by group, the quiz of each group of the reference grouping:
   * quizzes and groups correspond one to one, in the same order.
   */
  lemma {:induction false} ListByUserGroups(rows: seq<QuizRow>)
    ensures NonEmptyGroups(GroupBy(rows, QuizKey))
    ensures |ListByUser(rows)| == |GroupBy(rows, QuizKey)|
    ensures forall i :: 0 <= i < |ListByUser(rows)| ==>
              ListByUser(rows)[i] == QuizOfGroup(GroupBy(rows, QuizKey)[i])
  {
    GroupByNonEmpty(rows, QuizKey);
    if |rows| > 0 {
      var init := rows[..|rows| - 1];
      var row := rows[|rows| - 1];
      ListByUserGroups(init);
      GroupByNonEmpty(init, QuizKey);
      GroupByMemberKeys(init, QuizKey);
      var qs := ListByUser(init);
      var gs := GroupBy(init, QuizKey);
      var i := IndexOfQuiz(qs, row.quizId);
      var k := IndexOf(gs, row.quizId);
      assert forall j :: 0 <= j < |qs| ==> qs[j].id == gs[j].key;
      assert i == k;
      var gs' := GroupBy(rows, QuizKey);
      var qs' := ListByUser(rows);
      forall j | 0 <= j < |qs'|
        ensures qs'[j] == QuizOfGroup(gs'[j])
      {
        if j == i {
          if i < |gs| {
            assert gs'[j].rows == gs[j].rows + [row];
            assert gs'[j].rows[..|gs'[j].rows| - 1] == gs[j].rows;
          } else {
            assert gs'[j].rows == [row];
            assert QuestionsIn(gs'[j].rows) == QuestionsIn([]) + (if row.questionId.Some? then [QuestionOf(row)] else []);
          }
        }
      }
    }
  }

  /**
   * `list_by_user` yields one quiz per distinct quiz id, in first-occurrence order;
   * each carries the quiz columns of its first row and exactly the questions of its own
   * rows that have one, in row order.
   */
  lemma ListByUserSpec(rows: seq<QuizRow>)
    ensures |rows| == 0 ==> ListByUser(rows) == []
    ensures |ListByUser(rows)| == |Dedup(RowKeys(rows, QuizKey))|
    ensures forall i :: 0 <= i < |ListByUser(rows)| ==>
              var q := ListByUser(rows)[i];
              var own := Filter(rows, QuizKey, q.id);
              && q.id == Dedup(RowKeys(rows, QuizKey))[i]
              && |own| > 0
              && q == QuizOf(own[0], QuestionsIn(own))
  {
    ListByUserGroups(rows);
    GroupByKeys(rows, QuizKey);
    GroupByRows(rows, QuizKey);
    GroupByMemberKeys(rows, QuizKey);
    var gs := GroupBy(rows, QuizKey);
    forall i | 0 <= i < |gs|
      ensures ListByUser(rows)[i].id == gs[i].key
    {
      assert GroupKeys(gs)[i] == gs[i].key;
      assert QuizKey(gs[i].rows[0]) == gs[i].key;
    }
  }

  /** The question fields a caller may change; `Missing` is MISSING. */
  datatype QuestionPatch = QuestionPatch(question: Field<string>, answer: Field<string>, explanation: Field<Option<string>>)

  function QuestionColumns(p: QuestionPatch): seq<Column<SqlValue>> {
    [Column("question", p.question.Map(s => Text(s))),
     Column("answer", p.answer.Map(s => Text(s))),
     Column("explanation", p.explanation.Map(NullableText))]
  }

  /** The assignment every question update starts with. */
  const TouchUpdatedAt := "updated_at = CURRENT_TIMESTAMP"
  const QuestionHead := "UPDATE quiz_questions SET " + TouchUpdatedAt
  const QuestionTail := " WHERE id = :id AND quiz_id = :quiz_id RETURNING *"

  /** The question `update` statement, built by appending to the query as it goes. */
  function QuestionUpdate(quizId: int, id: int, p: QuestionPatch): Statement<SqlValue> {
    var cs := QuestionColumns(p);
    var query := AppendAll(QuestionHead, cs) + QuestionTail;
    var u := SetAll(Update([], map["id" := Int(id), "quiz_id" := Int(quizId)]), cs);
    Statement(query, u.params)
  }

  /**
   * The parameters are `id` and `quiz_id` plus exactly the supplied fields, each
   * bound to its new value.
   */
  lemma QuestionUpdateParams(quizId: int, id: int, p: QuestionPatch)
    ensures var r := QuestionUpdate(quizId, id, p);
      && r.params.Keys == {"id", "quiz_id"} + (if p.question.Present? then {"question"} else {})
         + (if p.answer.Present? then {"answer"} else {}) + (if p.explanation.Present? then {"explanation"} else {})
      && r.params["id"] == Int(id) && r.params["quiz_id"] == Int(quizId)
      && (p.question.Present? ==> r.params["question"] == Text(p.question.value))
      && (p.answer.Present? ==> r.params["answer"] == Text(p.answer.value))
      && (p.explanation.Present? ==> r.params["explanation"] == NullableText(p.explanation.value))
  {
    var cs := QuestionColumns(p);
    var u0 := Update([], map["id" := Int(id), "quiz_id" := Int(quizId)]);
    assert cs[..1][..0] == [] && cs[..2][..1] == cs[..1] && cs[..3] == cs;
    assert SetAll(u0, cs[..1]) == SetIf(u0, cs[0]);
    assert SetAll(u0, cs[..2]) == SetIf(SetAll(u0, cs[..1]), cs[1]);
    assert SetAll(u0, cs) == SetIf(SetAll(u0, cs[..2]), cs[2]);
  }

  /**
   * The SET clause always starts with `updated_at` and then lists `question`, `answer`,
   * `explanation` in that order, each only when supplied.
   */
  lemma QuestionUpdateSql(quizId: int, id: int, p: QuestionPatch)
    ensures QuestionUpdate(quizId, id, p).sql ==
              "UPDATE quiz_questions SET "
              + Join([TouchUpdatedAt] + Assignments(Selected(QuestionColumns(p))), ", ")
              + QuestionTail
    ensures Selected(QuestionColumns(p)) ==
              (if p.question.Present? then ["question"] else [])
              + (if p.answer.Present? then ["answer"] else [])
              + (if p.explanation.Present? then ["explanation"] else [])
  {
    var cs := QuestionColumns(p);
    AppendAllJoin("UPDATE quiz_questions SET ", [TouchUpdatedAt], cs);
    assert cs[..1][..0] == [] && cs[..2][..1] == cs[..1] && cs[..3] == cs;
    assert Selected(cs[..1]) == (if p.question.Present? then ["question"] else []);
    assert Selected(cs[..2]) == Selected(cs[..1]) + (if p.answer.Present? then ["answer"] else []);
    assert Selected(cs) == Selected(cs[..2]) + (if p.explanation.Present? then ["explanation"] else []);
  }
}
