/** The admin assessment routes: the `pass_rate` shown in the assessment
    list, and `PUT /assessments/:id`, which overwrites the basic columns and,
    for a non-empty question array, replaces the assessment's questions in one
    transaction. */
module AdminAssessments {
  import opened Common
  import opened Tables

  /** The sum of the scores. */
  function Sum(scores: seq<int>): int
  {
    if scores == [] then 0 else Sum(scores[..|scores| - 1]) + scores[|scores| - 1]
  }

  /** `AVG(score)`, NULL over no rows. */
  function Average(scores: seq<int>): (r: Option<real>)
    ensures r.None? <==> scores == []
  {
    if scores == [] then None else Some(Sum(scores) as real / |scores| as real)
  }

  /** `Math.round(p / n * 100)` for `0 <= p` and `0 < n`, in exact
      arithmetic: halves go up, so it is the floor of `100p/n + 1/2`. */
  function RoundedPercent(p: nat, n: nat): int
    requires n > 0
  {
    (200 * p + n) / (2 * n)
  }

  /** Multiplying by a positive number keeps the order. */
  lemma MulOrder(d: int, a: int, b: int)
    requires d > 0
    ensures a <= b <==> d * a <= d * b
  {
    assert d * b - d * a == d * (b - a);
  }

  /** Bounds on an integer quotient from bounds on the dividend. */
  lemma QuotientBetween(x: int, d: int, lo: int, hi: int)
    requires d > 0 && lo * d <= x < hi * d
    ensures lo <= x / d < hi
  {
    var q, r := x / d, x % d;
    assert x == d * q + r && 0 <= r < d;
    assert d * (q + 1) == d * q + d;
    MulOrder(d, q + 1, lo);
    MulOrder(d, hi, q);
  }

  /** A share of `p` out of `n` rounds to a percentage: 0 for none, 100 for
      all. */
  lemma RoundedPercentBounds(p: nat, n: nat)
    requires 0 < n && p <= n
    ensures 0 <= RoundedPercent(p, n) <= 100
    ensures p == 0 ==> RoundedPercent(p, n) == 0
    ensures p == n ==> RoundedPercent(p, n) == 100
  {
    QuotientBetween(200 * p + n, 2 * n, 0, 101);
    if p == 0 {
      QuotientBetween(n, 2 * n, 0, 1);
    }
    if p == n {
      QuotientBetween(201 * n, 2 * n, 100, 101);
    }
  }

  /** `Math.round((total_attempts ? total_attempts * (average_score >= 70 ? 1 : 0)
      / total_attempts : 0) * 100)` over the scores of one assessment. */
  function PassRate(scores: seq<int>): int
  {
    if |scores| == 0 then 0
    else
      var n := |scores|;
      var flag := if Average(scores).value >= PassThreshold as real then 1 else 0;
      RoundedPercent(n * flag, n)
  }

  /** An average of at least 70 means a sum of at least 70 per attempt. */
  lemma AverageAtLeast(scores: seq<int>)
    requires scores != []
    ensures Average(scores).value >= PassThreshold as real <==> Sum(scores) >= PassThreshold * |scores|
  {
    var n := |scores| as real;
    var s := Sum(scores) as real;
    assert s / n * n == s;
    if s / n >= 70.0 {
      assert s / n * n >= 70.0 * n;
    }
    if s >= 70.0 * n {
      assert (70.0 * n) / n == 70.0;
    }
  }

  /** The list's pass rate is all or nothing: 100 when the average score of
      at least one attempt reaches 70, and 0 otherwise. */
  lemma PassRateAllOrNothing(scores: seq<int>)
    ensures PassRate(scores) == 0 || PassRate(scores) == 100
    ensures PassRate(scores) == 100 <==> scores != [] && Sum(scores) >= PassThreshold * |scores|
  {
    if scores != [] {
      var n := |scores|;
      AverageAtLeast(scores);
      RoundedPercentBounds(n, n);
      RoundedPercentBounds(0, n);
    }
  }

  /** The number of attempts scoring at least 70. */
  function Passes(scores: seq<int>): (k: nat)
    ensures k <= |scores|
  {
    if scores == [] then 0
    else Passes(scores[..|scores| - 1]) + (if scores[|scores| - 1] >= PassThreshold then 1 else 0)
  }

  /** The pass rate the list evidently intends: the share of attempts
      scoring at least 70, the ratio the statistics route takes over all
      attempts, rounded to a whole percentage and 0 without attempts as the
      list's own formula does. */
  function PassRatePercent(scores: seq<int>): int
  {
    if scores == [] then 0 else RoundedPercent(Passes(scores), |scores|)
  }

  /** The share is a percentage: 0 when no attempt passes, 100 when every
      attempt does, and between the two otherwise. */
  lemma PassRatePercentBounds(scores: seq<int>)
    ensures 0 <= PassRatePercent(scores) <= 100
    ensures Passes(scores) == 0 ==> PassRatePercent(scores) == 0
    ensures scores != [] && Passes(scores) == |scores| ==> PassRatePercent(scores) == 100
  {
    if scores != [] {
      RoundedPercentBounds(Passes(scores), |scores|);
    }
  }

  /** Two attempts scoring 100 and 40 average 70: the list reports a pass
      rate of 100 although only one attempt of the two passed. */
  lemma PassRateCounterexample()
    ensures PassRate([100, 40]) == 100
    ensures Passes([100, 40]) == 1 && PassRatePercent([100, 40]) == 50
  {
    assert [100, 40][..1] == [100];
    assert [100][..0] == [];
    PassRateAllOrNothing([100, 40]);
  }

  /** A question as the request body sends it. The options come as an
      array, stored as its `JSON.stringify` text, as text stored as is, or
      not at all (missing or null), bound as NULL. The text and the correct
      answer are bound as they come, NULL when missing; the type may be
      missing. */
  datatype OptionsInput = OptionList(items: seq<string>) | OptionText(text: string) | OptionNull

  datatype QuestionInput = QuestionInput(text: Option<string>, correctAnswer: Option<string>,
                                         options: OptionsInput, kind: Option<string>)

  /** `question.type || 'multiple-choice'`. */
  function KindOf(kind: Option<string>): (r: string)
    ensures Truthy(kind) ==> r == kind.value
    ensures !Truthy(kind) ==> r == "multiple-choice"
  {
    if Truthy(kind) then kind.value else "multiple-choice"
  }

  /** The `options` column; `encode` stands for `JSON.stringify`. */
  function StoredOptions(o: OptionsInput, encode: seq<string> -> string): Option<string>
  {
    match o
    case OptionList(items) => Some(encode(items))
    case OptionText(t) => Some(t)
    case OptionNull => None
  }

  /** The row one `INSERT INTO questions` adds, with AUTO_INCREMENT id `id`. */
  function Stored(aid: int, q: QuestionInput, id: int, encode: seq<string> -> string): Question
  {
    Question(id, aid, q.text, q.correctAnswer, StoredOptions(q.options, encode), KindOf(q.kind))
  }

  /** The rows the insert loop adds, in order, from id `first` on. */
  function Inserted(aid: int, inputs: seq<QuestionInput>, first: int, encode: seq<string> -> string)
    : (r: seq<Question>)
    ensures |r| == |inputs|
  {
    if inputs == [] then []
    else
      var n := |inputs| - 1;
      Inserted(aid, inputs[..n], first, encode) + [Stored(aid, inputs[n], first + n, encode)]
  }

  /** Each inserted row carries its input's fields, the assessment id, and
      the next id in sequence. */
  lemma {:induction false} InsertedRows(aid: int, inputs: seq<QuestionInput>, first: int,
                                        encode: seq<string> -> string)
    ensures forall k :: 0 <= k < |inputs| ==>
      Inserted(aid, inputs, first, encode)[k] == Stored(aid, inputs[k], first + k, encode)
  {
    if inputs != [] {
      var n := |inputs| - 1;
      InsertedRows(aid, inputs[..n], first, encode);
    }
  }

  /** `DELETE FROM questions WHERE assessment_id = ?`. */
  function WithoutAssessment(questions: seq<Question>, aid: int): (r: seq<Question>)
    ensures |r| <= |questions|
  {
    if questions == [] then []
    else
      var n := |questions| - 1;
      WithoutAssessment(questions[..n], aid) + (if questions[n].assessmentId == aid then [] else [questions[n]])
  }

  /** `SELECT * FROM questions WHERE assessment_id = ?`, in table order. */
  function QuestionsOf(questions: seq<Question>, aid: int): (r: seq<Question>)
    ensures |r| <= |questions|
  {
    if questions == [] then []
    else
      var n := |questions| - 1;
      QuestionsOf(questions[..n], aid) + (if questions[n].assessmentId == aid then [questions[n]] else [])
  }

  lemma {:induction false} QuestionsOfAppend(a: seq<Question>, b: seq<Question>, aid: int)
    ensures QuestionsOf(a + b, aid) == QuestionsOf(a, aid) + QuestionsOf(b, aid)
  {
    if b != [] {
      var n := |b| - 1;
      assert (a + b)[..|a| + n] == a + b[..n];
      QuestionsOfAppend(a, b[..n], aid);
    } else {
      assert a + b == a;
    }
  }

  /** The deletion removes exactly the questions of assessment `aid`. */
  lemma {:induction false} WithoutAssessmentSpec(questions: seq<Question>, aid: int, other: int)
    ensures QuestionsOf(WithoutAssessment(questions, aid), aid) == []
    ensures other != aid ==> QuestionsOf(WithoutAssessment(questions, aid), other) == QuestionsOf(questions, other)
  {
    if questions != [] {
      var n := |questions| - 1;
      var rest := WithoutAssessment(questions[..n], aid);
      var last := if questions[n].assessmentId == aid then [] else [questions[n]];
      WithoutAssessmentSpec(questions[..n], aid, other);
      QuestionsOfAppend(rest, last, aid);
      QuestionsOfAppend(rest, last, other);
      assert [] + last == last;
      if last != [] {
        assert last[..0] == [];
      }
    }
  }

  /** The inserted rows all belong to assessment `aid`. */
  lemma {:induction false} InsertedBelong(aid: int, inputs: seq<QuestionInput>, first: int,
                                          encode: seq<string> -> string, other: int)
    ensures QuestionsOf(Inserted(aid, inputs, first, encode), aid) == Inserted(aid, inputs, first, encode)
    ensures other != aid ==> QuestionsOf(Inserted(aid, inputs, first, encode), other) == []
  {
    if inputs != [] {
      var n := |inputs| - 1;
      var init := Inserted(aid, inputs[..n], first, encode);
      var row := Stored(aid, inputs[n], first + n, encode);
      InsertedBelong(aid, inputs[..n], first, encode, other);
      QuestionsOfAppend(init, [row], aid);
      QuestionsOfAppend(init, [row], other);
      assert [row][..0] == [];
    }
  }

  /** After the replacement, assessment `aid` has exactly the new questions,
      in the order sent, and every other assessment keeps its own. */
  lemma ReplacedQuestions(questions: seq<Question>, aid: int, inputs: seq<QuestionInput>, first: int,
                          encode: seq<string> -> string, other: int)
    ensures var after := WithoutAssessment(questions, aid) + Inserted(aid, inputs, first, encode);
      QuestionsOf(after, aid) == Inserted(aid, inputs, first, encode) &&
      (other != aid ==> QuestionsOf(after, other) == QuestionsOf(questions, other))
  {
    var kept := WithoutAssessment(questions, aid);
    var added := Inserted(aid, inputs, first, encode);
    QuestionsOfAppend(kept, added, aid);
    QuestionsOfAppend(kept, added, other);
    WithoutAssessmentSpec(questions, aid, other);
    InsertedBelong(aid, inputs, first, encode, other);
    assert [] + added == added;
    assert QuestionsOf(questions, other) + [] == QuestionsOf(questions, other);
  }

  /** The delete and the insert loop, on a working copy of the table. */
  method ReplaceQuestions(questions: seq<Question>, next: int, aid: int, inputs: seq<QuestionInput>,
                          encode: seq<string> -> string)
    returns (questions': seq<Question>, next': int)
    requires IdsBelow(questions, next)
    ensures next' == next + |inputs|
    ensures questions' == WithoutAssessment(questions, aid) + Inserted(aid, inputs, next, encode)
    ensures IdsBelow(questions', next')
  {
    questions' := WithoutAssessment(questions, aid);
    assert IdsBelow(questions', next) by {
      WithoutAssessmentIds(questions, aid, next);
    }
    next' := next;
    var i := 0;
    while i < |inputs|
      invariant 0 <= i <= |inputs|
      invariant next' == next + i
      invariant questions' == WithoutAssessment(questions, aid) + Inserted(aid, inputs[..i], next, encode)
      invariant IdsBelow(questions', next')
    {
      var q := inputs[i];
      var row := Question(next', aid, q.text, q.correctAnswer, StoredOptions(q.options, encode), KindOf(q.kind));
      questions' := questions' + [row];
      next' := next' + 1;
      i := i + 1;
      assert inputs[..i][..i - 1] == inputs[..i - 1];
    }
    assert inputs[..i] == inputs;
  }

  /** Deleting rows keeps every remaining id below the counter. */
  lemma {:induction false} WithoutAssessmentIds(questions: seq<Question>, aid: int, next: int)
    requires IdsBelow(questions, next)
    ensures IdsBelow(WithoutAssessment(questions, aid), next)
  {
    if questions != [] {
      var n := |questions| - 1;
      assert IdsBelow(questions[..n], next);
      WithoutAssessmentIds(questions[..n], aid, next);
    }
  }

  /** Status and, on success, the updated row with its questions. */
  datatype AssessmentReply = AssessmentReply(status: int, assessment: Option<Assessment>,
                                             questions: seq<Question>)

  /** The questions after the update: replaced for a non-empty array,
      untouched for a missing or empty one. */
  ghost predicate QuestionsUpdated(qs0: seq<Question>, next0: int, qs: seq<Question>, next: int, id: int,
                                   questions: Option<seq<QuestionInput>>, encode: seq<string> -> string)
  {
    if questions.Some? && questions.value != [] then
      qs == WithoutAssessment(qs0, id) + Inserted(id, questions.value, next0, encode) &&
      next == next0 + |questions.value|
    else
      qs == qs0 && next == next0
  }

  /** `JSON.parse` accepts every stored options text; `parses` stands for
      `JSON.parse` not throwing. A NULL column is not a string, so it is
      passed through without being parsed. */
  predicate OptionsParse(qs: seq<Question>, parses: string -> bool)
  {
    forall k :: 0 <= k < |qs| && qs[k].options.Some? ==> parses(qs[k].options.value)
  }

  /** A question sent with its options as text that is not JSON is stored
      as it is, so once the replacement is committed the assessment holds an
      options text that `JSON.parse` refuses. */
  lemma UnparsableOptionsStored(questions: seq<Question>, aid: int, inputs: seq<QuestionInput>, first: int,
                                encode: seq<string> -> string, parses: string -> bool, k: nat)
    requires k < |inputs| && inputs[k].options.OptionText? && !parses(inputs[k].options.text)
    ensures !OptionsParse(QuestionsOf(WithoutAssessment(questions, aid) + Inserted(aid, inputs, first, encode), aid),
                          parses)
  {
    ReplacedQuestions(questions, aid, inputs, first, encode, aid);
    InsertedRows(aid, inputs, first, encode);
    var qs := Inserted(aid, inputs, first, encode);
    assert qs[k].options == Some(inputs[k].options.text);
  }

  /** Options sent as arrays are stored as `JSON.stringify` text, which
      `JSON.parse` reads back, and options left out are stored as NULL,
      which is not parsed: when no new question sends its options as text,
      the replaced questions all pass the read-back. */
  lemma ListedOptionsParse(questions: seq<Question>, aid: int, inputs: seq<QuestionInput>, first: int,
                           encode: seq<string> -> string, parses: string -> bool)
    requires forall items :: parses(encode(items))
    requires forall k :: 0 <= k < |inputs| ==> !inputs[k].options.OptionText?
    ensures OptionsParse(QuestionsOf(WithoutAssessment(questions, aid) + Inserted(aid, inputs, first, encode), aid),
                         parses)
  {
    ReplacedQuestions(questions, aid, inputs, first, encode, aid);
    InsertedRows(aid, inputs, first, encode);
    var qs := Inserted(aid, inputs, first, encode);
    forall k | 0 <= k < |qs| && qs[k].options.Some?
      ensures parses(qs[k].options.value)
    {
      assert qs[k].options == Some(encode(inputs[k].options.items));
    }
  }

  /** The transaction of the update, from the UPDATE to the commit. */
  method CommitAssessment(db: Database, id: int, basic: Assessment, questions: Option<seq<QuestionInput>>,
                          encode: seq<string> -> string)
    requires db.Valid()
    modifies db
    ensures db.Valid()
    ensures db.assessments == old(db.assessments)[id := basic]
    ensures QuestionsUpdated(old(db.questions), old(db.nextQuestionId), db.questions, db.nextQuestionId,
                             id, questions, encode)
    ensures db.users == old(db.users) && db.allSkills == old(db.allSkills) && db.skills == old(db.skills) &&
      db.userSkills == old(db.userSkills) && db.settings == old(db.settings) &&
      db.subscribers == old(db.subscribers)
  {
    var qs, next := db.questions, db.nextQuestionId;
    if questions.Some? && |questions.value| > 0 {
      qs, next := ReplaceQuestions(qs, next, id, questions.value, encode);
    }
    assert QuestionsUpdated(db.questions, db.nextQuestionId, qs, next, id, questions, encode);
    db.assessments := db.assessments[id := basic];
    db.questions, db.nextQuestionId := qs, next;
  }

  /** `PUT /assessments/:id`. `basic` holds the six body fields as they are
      bound, `None` (NULL) for a field the body leaves out. `dbError` stands
      for a statement failing before the commit, a NULL that a NOT NULL
      column refuses among them; the transaction is then rolled back. After
      the commit the route reads the row and its questions back and parses
      each options text: `readError` stands for a read failing and `parses`
      for `JSON.parse` accepting a text. Either failure answers 500 with the
      update already committed. */
  method UpdateAssessment(db: Database, id: int, basic: Assessment, questions: Option<seq<QuestionInput>>,
                          encode: seq<string> -> string, parses: string -> bool, dbError: bool,
                          readError: bool)
    returns (reply: AssessmentReply)
    requires db.Valid()
    modifies db
    ensures db.Valid()
    ensures dbError ==> reply.status == ServerError
    ensures !dbError ==> (reply.status == NotFound <==> id !in old(db.assessments))
    ensures reply.status == OK <==>
      !dbError && id in old(db.assessments) && !readError && OptionsParse(QuestionsOf(db.questions, id), parses)
    ensures reply.status != OK ==> reply.assessment.None?
    // not committed: the rows are as they were; a rolled-back insert may
    // have used up question ids
    ensures dbError || id !in old(db.assessments) ==>
      db.assessments == old(db.assessments) && db.questions == old(db.questions) &&
      old(db.nextQuestionId) <= db.nextQuestionId
    // committed: the six basic columns are always overwritten
    ensures !dbError && id in old(db.assessments) ==>
      db.assessments == old(db.assessments)[id := basic] &&
      QuestionsUpdated(old(db.questions), old(db.nextQuestionId), db.questions, db.nextQuestionId,
                       id, questions, encode)
    ensures reply.status == OK ==>
      reply.assessment == Some(basic) && reply.questions == QuestionsOf(db.questions, id)
    ensures db.users == old(db.users) && db.allSkills == old(db.allSkills) && db.skills == old(db.skills) &&
      db.userSkills == old(db.userSkills) && db.settings == old(db.settings) &&
      db.subscribers == old(db.subscribers)
  {
    if dbError {
      return AssessmentReply(ServerError, None, []);
    }
    if id !in db.assessments {
      return AssessmentReply(NotFound, None, []);
    }
    CommitAssessment(db, id, basic, questions, encode);
    var rows := QuestionsOf(db.questions, id);
    if readError || !OptionsParse(rows, parses) {
      return AssessmentReply(ServerError, None, []);
    }
    reply := AssessmentReply(OK, Some(basic), rows);
  }
}
