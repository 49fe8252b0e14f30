/** The per-question detail of `/api/submission/:id`: one entry per question
    of the (possibly deleted) test with the student's answer, whether it was
    right and the teacher's manual points, or, when the test has no questions
    left, one placeholder entry per stored answer. */
module SubmissionView {
  import opened JsValues
  import opened Answers
  import opened Scoring
  import opened Grading

  datatype DetailEntry =
    | QuestionEntry(question: Value, kind: Value, points: Value, options: Value,
                    correctAnswer: Value, studentAnswer: Value, isCorrect: bool,
                    manualPoints: Option<real>)
    | DeletedEntry(question: Value, studentAnswer: Value, points: Value, kind: Value)

  /** "The question was deleted (the test was removed)". */
  const DeletedQuestionText: string := "Въпросът е изтрит (Тестът е премахнат)"

  /** `q.points || 1`: the points shown, taken as stored and not parsed. */
  function DisplayPoints(points: Value): Value {
    if Truthy(points) then points else Num(1)
  }

  /** `manualPoints[i]`: the index is looked up under its decimal string. */
  function ManualFor(manual: map<string, real>, i: nat): Option<real> {
    var key := NatToString(i);
    if key in manual then Some(manual[key]) else None
  }

  /** `isCorrect` as the `questions.map` callback computes it, with its own
      copy of the comparison; `None` when `(q.correct||[]).map` throws. */
  function ViewIsCorrect(q: Question, studentAns: Value): Option<bool> {
    if q.kind == Str("single") then
      var parsed := ParseIntValue(studentAns);
      Some(parsed.Some? && q.correct == Num(parsed.value))
    else if q.kind == Str("multiple") then
      match CorrectStrings(q.correct)
      case None => None
      case Some(cs) =>
        var correctSet := StringSet(cs);
        var studentSet := StringSet(StudentStrings(studentAns));
        Some(|correctSet| == |studentSet| && forall x :: x in correctSet ==> x in studentSet)
    else Some(false)
  }

  /** The view's copy of the comparison throws on the same questions as the
      grading pass and marks correct exactly the answers that earn points. */
  lemma ViewIsCorrectAgreesWithJudge(q: Question, studentAns: Value)
    ensures ViewIsCorrect(q, studentAns).None? <==> Judge(q, studentAns) == TypeError
    ensures ViewIsCorrect(q, studentAns) == Some(true) <==> Judge(q, studentAns) == Awarded
  {
    if q.kind == Str("multiple") && CorrectStrings(q.correct).Some? {
      var correctSet := StringSet(CorrectStrings(q.correct).value);
      var studentSet := StringSet(StudentStrings(studentAns));
      if |correctSet| == |studentSet| && forall x :: x in correctSet ==> x in studentSet {
        SubsetOfSameSize(correctSet, studentSet);
      }
    }
  }

  /** The object the `questions.map` callback returns for one question. */
  function EntryFor(q: Question, studentAns: Value, manual: Option<real>): DetailEntry {
    QuestionEntry(q.text, q.kind, DisplayPoints(q.points), q.options, q.correct,
                  studentAns, ViewIsCorrect(q, studentAns) == Some(true), manual)
  }

  /** `questions.map((q, i) => …)`. */
  function QuestionEntries(qs: seq<Question>, answers: AnswerBag, manual: map<string, real>): seq<DetailEntry> {
    seq(|qs|, i requires 0 <= i < |qs| =>
      EntryFor(qs[i], Lookup(answers, AnswerKey(i)), ManualFor(manual, i)))
  }

  /** The fallback: one placeholder per key of the stored answers, in key order,
      carrying `answers[key]`. */
  function DeletedEntries(answers: AnswerBag): (r: seq<DetailEntry>)
    ensures |r| == |answers|
    ensures forall k :: 0 <= k < |answers| ==>
      r[k] == DeletedEntry(Str(DeletedQuestionText), Lookup(answers, answers[k].0), Num(0), Str("unknown"))
  {
    assert forall k :: 0 <= k < |answers| ==> Lookup(answers, answers[k].0) == answers[k].1 by {
      forall k | 0 <= k < |answers| ensures Lookup(answers, answers[k].0) == answers[k].1 {
        LookupAt(answers, k);
      }
    }
    seq(|answers|, k requires 0 <= k < |answers| =>
      DeletedEntry(Str(DeletedQuestionText), answers[k].1, Num(0), Str("unknown")))
  }

  /** `row.questions ? JSON.parse(row.questions) : []`. */
  function QuestionsOrEmpty(stored: Option<seq<Question>>): seq<Question> {
    if stored.Some? then stored.value else []
  }

  /** The `answers` array of the `/api/submission/:id` response. The stored
      questions are `None` when the test row is gone. The `map` callback
      throws on the same questions as the grading pass. */
  method BuildDetail(stored: Option<seq<Question>>, answers: AnswerBag, manual: map<string, real>)
    returns (r: Reply<seq<DetailEntry>>)
    ensures r.Crashed? <==> AnyMalformed(QuestionsOrEmpty(stored))
    ensures r.Replied? && |QuestionsOrEmpty(stored)| > 0 ==>
      r.value == QuestionEntries(QuestionsOrEmpty(stored), answers, manual)
    ensures r.Replied? && |QuestionsOrEmpty(stored)| == 0 ==> r.value == DeletedEntries(answers)
  {
    var questions := QuestionsOrEmpty(stored);
    if exists i | 0 <= i < |questions| :: ViewIsCorrect(questions[i], Lookup(answers, AnswerKey(i))).None? {
      ghost var i :| 0 <= i < |questions| && ViewIsCorrect(questions[i], Lookup(answers, AnswerKey(i))).None?;
      ViewIsCorrectAgreesWithJudge(questions[i], Lookup(answers, AnswerKey(i)));
      return Crashed;
    }
    forall i | 0 <= i < |questions| ensures !Malformed(questions[i]) {
      ViewIsCorrectAgreesWithJudge(questions[i], Lookup(answers, AnswerKey(i)));
    }
    var result := QuestionEntries(questions, answers, manual);
    if |questions| == 0 && |answers| > 0 {
      var k := 0;
      while k < |answers|
        invariant 0 <= k <= |answers|
        invariant result == DeletedEntries(answers)[..k]
      {
        var key := answers[k].0;
        result := result + [DeletedEntry(Str(DeletedQuestionText), Lookup(answers, key), Num(0), Str("unknown"))];
        k := k + 1;
      }
    }
    return Replied(result);
  }

  /** Entry `i` is the `i`-th question's, with the answer stored under `q${i}`
      and the manual points stored under the index. */
  lemma EntryAt(qs: seq<Question>, answers: AnswerBag, manual: map<string, real>, i: nat)
    requires i < |qs|
    ensures var e := QuestionEntries(qs, answers, manual);
            |e| == |qs| && e[i].QuestionEntry? && e[i].question == qs[i].text
            && e[i].studentAnswer == Lookup(answers, AnswerKey(i))
            && e[i].manualPoints == ManualFor(manual, i)
            && e[i].correctAnswer == qs[i].correct
  {
  }

  /** Sum of the graded weights of the first `n` entries the view marks correct. */
  function ViewCredit(entries: seq<DetailEntry>, qs: seq<Question>, n: nat): int
    requires n <= |entries| && n <= |qs|
  {
    if n == 0 then 0
    else ViewCredit(entries, qs, n - 1)
         + (if entries[n - 1].QuestionEntry? && entries[n - 1].isCorrect then QuestionPoints(qs[n - 1]) else 0)
  }

  /** The view's `isCorrect` flags agree with the grading pass: the questions it
      marks correct are exactly those that earned points, so their weights add
      up to the earned points. */
  lemma {:induction false} ViewAgreesWithGrading(qs: seq<Question>, answers: AnswerBag, manual: map<string, real>, n: nat)
    requires n <= |qs|
    ensures ViewCredit(QuestionEntries(qs, answers, manual), qs, n) == EarnedPoints(qs, answers, n)
  {
    if n > 0 {
      ViewAgreesWithGrading(qs, answers, manual, n - 1);
      ViewIsCorrectAgreesWithJudge(qs[n - 1], Lookup(answers, AnswerKey(n - 1)));
    }
  }

  /** A question is marked correct exactly when grading added its weight. */
  lemma IsCorrectMeansCredited(qs: seq<Question>, answers: AnswerBag, manual: map<string, real>, i: nat)
    requires i < |qs|
    ensures QuestionEntries(qs, answers, manual)[i].isCorrect <==> Credit(qs, answers, i) != 0
  {
    ViewIsCorrectAgreesWithJudge(qs[i], Lookup(answers, AnswerKey(i)));
  }

  /** The points shown agree with the weight used for grading when the stored
      points are a number or missing. */
  lemma DisplayPointsMatchWeight(q: Question)
    requires q.points.Num? || q.points == Undefined
    ensures DisplayPoints(q.points) == Num(QuestionPoints(q))
  {
  }

  /** They need not agree for a string: `"0"` is shown as `"0"` (a non-empty
      string is truthy) but graded with weight 1 (`parseInt("0") || 1`). */
  lemma DisplayPointsDifferForStringZero(q: Question)
    requires q.points == Str("0")
    ensures DisplayPoints(q.points) == Str("0") && QuestionPoints(q) == 1
  {
    assert ToString(q.points) == "0";
    assert ['0'][1..] == [];
  }

  /** Nor for a boolean: `true` is shown as `true` but graded with weight 1
      (`parseInt("true")` is `NaN`). */
  lemma DisplayPointsDifferForTrue(q: Question)
    requires q.points == Bool(true)
    ensures DisplayPoints(q.points) == Bool(true) && QuestionPoints(q) == 1
  {
  }
}
