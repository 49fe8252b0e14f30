/** The auto-grading of `/api/grade/:id`: a pass over the test's questions that
    accumulates `totalPoints` and `earnedPoints`, then the 2–6 grade. */
module Grading {
  import opened JsValues
  import opened Answers
  import opened Scoring

  /** `totalPoints` after the first `n` questions: every question adds its weight,
      whatever its type. */
  function TotalPoints(qs: seq<Question>, n: nat): int
    requires n <= |qs|
  {
    if n == 0 then 0 else TotalPoints(qs, n - 1) + QuestionPoints(qs[n - 1])
  }

  /** What question `i` adds to `earnedPoints`: all its weight or nothing. */
  function Credit(qs: seq<Question>, bag: AnswerBag, i: nat): int
    requires i < |qs|
  {
    if Judge(qs[i], Lookup(bag, AnswerKey(i))) == Awarded then QuestionPoints(qs[i]) else 0
  }

  /** `earnedPoints` after the first `n` questions. */
  function EarnedPoints(qs: seq<Question>, bag: AnswerBag, n: nat): int
    requires n <= |qs|
  {
    if n == 0 then 0 else EarnedPoints(qs, bag, n - 1) + Credit(qs, bag, n - 1)
  }

  lemma RatioBounds(earned: int, total: int)
    requires total > 0
    ensures earned <= 0 ==> earned as real / total as real <= 0.0
    ensures earned >= total ==> earned as real / total as real >= 1.0
    ensures 0 <= earned <= total ==> 0.0 <= earned as real / total as real <= 1.0
  {
    var ratio := earned as real / total as real;
    assert ratio * total as real == earned as real;
  }

  /** The grade: `2 + 4 * earned / total` when the total is positive, else 2,
      clamped to [2, 6]. */
  function GradeOf(total: int, earned: int): (g: real)
    ensures 2.0 <= g <= 6.0
    ensures total <= 0 || earned <= 0 ==> g == 2.0
    ensures total > 0 && earned >= total ==> g == 6.0
    ensures total > 0 && 0 <= earned <= total ==> g == 2.0 + 4.0 * (earned as real / total as real)
  {
    var raw := if total > 0 then 2.0 + 4.0 * (earned as real / total as real) else 2.0;
    if total > 0 then RatioBounds(earned, total); Clamp(raw) else Clamp(raw)
  }

  function Clamp(raw: real): (g: real)
    ensures 2.0 <= g <= 6.0
    ensures 2.0 <= raw <= 6.0 ==> g == raw
  {
    if raw < 2.0 then 2.0 else if raw > 6.0 then 6.0 else raw
  }

  datatype Score = Score(total: int, earned: int, grade: real)

  /** The grading pass of `/api/grade/:id` over the parsed questions and the
      submitted answers. It crashes exactly when some multiple-choice question
      has a truthy key that is not an array. */
  method GradeSubmission(questions: seq<Question>, answers: AnswerBag) returns (r: Reply<Score>)
    ensures r.Crashed? <==> AnyMalformed(questions)
    ensures r.Replied? ==> r.value.total == TotalPoints(questions, |questions|)
    ensures r.Replied? ==> r.value.earned == EarnedPoints(questions, answers, |questions|)
    ensures r.Replied? ==> r.value.grade == GradeOf(r.value.total, r.value.earned)
  {
    var totalPoints := 0;
    var earnedPoints := 0;
    var i := 0;
    while i < |questions|
      invariant 0 <= i <= |questions|
      invariant totalPoints == TotalPoints(questions, i)
      invariant earnedPoints == EarnedPoints(questions, answers, i)
      invariant WellFormedPrefix(questions, i)
    {
      var q := questions[i];
      var qPoints := QuestionPoints(q);
      totalPoints := totalPoints + qPoints;
      var studentAns := Lookup(answers, AnswerKey(i));
      var verdict := ScoreQuestion(q, studentAns);
      if verdict == TypeError {
        assert Malformed(questions[i]);
        return Crashed;
      }
      if verdict == Awarded {
        earnedPoints := earnedPoints + qPoints;
      }
      CreditStep(questions, answers, i, verdict);
      i := i + 1;
    }

    WellFormedPrefixMeansNoneMalformed(questions, |questions|);
    var grade := ComputeGrade(totalPoints, earnedPoints);
    return Replied(Score(totalPoints, earnedPoints, grade));
  }

  /** None of the first `n` questions is malformed. */
  predicate WellFormedPrefix(qs: seq<Question>, n: nat)
    requires n <= |qs|
  {
    n == 0 || (WellFormedPrefix(qs, n - 1) && !Malformed(qs[n - 1]))
  }

  lemma {:induction false} WellFormedPrefixMeansNoneMalformed(qs: seq<Question>, n: nat)
    requires n <= |qs|
    ensures WellFormedPrefix(qs, n) <==> forall j :: 0 <= j < n ==> !Malformed(qs[j])
  {
    if n > 0 {
      WellFormedPrefixMeansNoneMalformed(qs, n - 1);
    }
  }

  /** One step of the loop: question `i` adds its weight to the total and its
      credit, decided by the verdict `v`, to the earned points. */
  lemma CreditStep(qs: seq<Question>, bag: AnswerBag, i: nat, v: Verdict)
    requires i < |qs| && v == Judge(qs[i], Lookup(bag, AnswerKey(i)))
    ensures TotalPoints(qs, i + 1) == TotalPoints(qs, i) + QuestionPoints(qs[i])
    ensures EarnedPoints(qs, bag, i + 1)
            == EarnedPoints(qs, bag, i) + (if v == Awarded then QuestionPoints(qs[i]) else 0)
  {
  }

  /** The grade assignment and its two clamping `if`s. */
  method ComputeGrade(totalPoints: int, earnedPoints: int) returns (grade: real)
    ensures grade == GradeOf(totalPoints, earnedPoints)
  {
    grade := 2.0;
    if totalPoints > 0 {
      grade := 2.0 + 4.0 * (earnedPoints as real / totalPoints as real);
    }
    if grade < 2.0 {
      grade := 2.0;
    }
    if grade > 6.0 {
      grade := 6.0;
    }
  }

  /** The body of the `forEach` callback for one question and its answer:
      whether it earns its points, or the `TypeError` it throws. */
  method ScoreQuestion(q: Question, studentAns: Value) returns (v: Verdict)
    ensures v == Judge(q, studentAns)
  {
    v := NotAwarded;
    if q.kind == Str("single") {
      var parsed := ParseIntValue(studentAns);
      if parsed.Some? && q.correct == Num(parsed.value) {
        v := Awarded;
      }
    } else if q.kind == Str("multiple") {
      var correct := CorrectStrings(q.correct);
      if correct.None? {
        return TypeError;
      }
      var correctSet := StringSet(correct.value);
      var studentSet := StringSet(StudentStrings(studentAns));
      if SameStringSet(correctSet, studentSet) {
        v := Awarded;
      }
    }
  }

  predicate PositivePoints(qs: seq<Question>) {
    forall i :: 0 <= i < |qs| ==> QuestionPoints(qs[i]) > 0
  }

  /** With positive weights every question adds at least 1 to the total, and
      the earned points never exceed it. */
  lemma {:induction false} EarnedWithinTotal(qs: seq<Question>, bag: AnswerBag, n: nat)
    requires n <= |qs| && PositivePoints(qs)
    ensures 0 <= EarnedPoints(qs, bag, n) <= TotalPoints(qs, n)
    ensures TotalPoints(qs, n) >= n
  {
    if n > 0 {
      EarnedWithinTotal(qs, bag, n - 1);
    }
  }

  /** On a positive pass the grade is the linear 2–6 scale, unclamped. */
  lemma GradeIsLinearForPositiveWeights(qs: seq<Question>, bag: AnswerBag)
    requires |qs| > 0 && PositivePoints(qs)
    ensures var total := TotalPoints(qs, |qs|);
            var earned := EarnedPoints(qs, bag, |qs|);
            total > 0 && GradeOf(total, earned) == 2.0 + 4.0 * (earned as real / total as real)
  {
    EarnedWithinTotal(qs, bag, |qs|);
  }

  /** Open and unknown-type questions never earn: a test without single- or
      multiple-choice questions earns 0 and grades 2, however many points its
      questions carry. */
  lemma {:induction false} NoObjectiveQuestionsEarnNothing(qs: seq<Question>, bag: AnswerBag, n: nat)
    requires n <= |qs|
    requires forall i :: 0 <= i < |qs| ==> qs[i].kind != Str("single") && qs[i].kind != Str("multiple")
    ensures EarnedPoints(qs, bag, n) == 0
    ensures GradeOf(TotalPoints(qs, n), EarnedPoints(qs, bag, n)) == 2.0
  {
    if n > 0 {
      NoObjectiveQuestionsEarnNothing(qs, bag, n - 1);
    }
  }

  /** When every question is earned the earned points equal the total, and a
      non-empty test with positive weights grades 6. */
  lemma {:induction false} AllAwardedEarnsTotal(qs: seq<Question>, bag: AnswerBag, n: nat)
    requires n <= |qs|
    requires forall i :: 0 <= i < |qs| ==> Judge(qs[i], Lookup(bag, AnswerKey(i))) == Awarded
    ensures EarnedPoints(qs, bag, n) == TotalPoints(qs, n)
    ensures n > 0 && PositivePoints(qs) ==> GradeOf(TotalPoints(qs, n), EarnedPoints(qs, bag, n)) == 6.0
  {
    if n > 0 {
      AllAwardedEarnsTotal(qs, bag, n - 1);
      if PositivePoints(qs) {
        EarnedWithinTotal(qs, bag, n);
      }
    }
  }

  /** More earned points never give a lower grade. */
  lemma GradeMonotone(total: int, e1: int, e2: int)
    requires e1 <= e2
    ensures GradeOf(total, e1) <= GradeOf(total, e2)
  {
    if total > 0 {
      var t := total as real;
      assert e1 as real / t <= e2 as real / t by {
        assert (e2 as real / t - e1 as real / t) * t == e2 as real - e1 as real;
      }
    }
  }

  /** A test of a single-choice question keyed 1 worth 2 points and a
      multiple-choice question keyed [0, 2] worth 3. */
  function ExampleTest(): seq<Question> {
    [Question(Str("A"), Str("single"), Undefined, Num(1), Num(2)),
     Question(Str("B"), Str("multiple"), Undefined, Arr([Num(0), Num(2)]), Num(3))]
  }

  /** The right answers to `ExampleTest`: "1" and ["0", "2"]. */
  function ExampleRightAnswers(): AnswerBag {
    [("q0", Str("1")), ("q1", Arr([Str("0"), Str("2")]))]
  }

  lemma ExampleSingleRight()
    ensures Credit(ExampleTest(), ExampleRightAnswers(), 0) == 2
  {
    var qs := ExampleTest();
    assert AnswerKey(0) == "q0";
    SingleChoiceMatchesIndex(qs[0], 1, 1, []);
    assert IntToString(1) + [] == "1";
  }

  lemma ExampleMultipleRight()
    ensures Credit(ExampleTest(), ExampleRightAnswers(), 1) == 3
  {
    var qs := ExampleTest();
    assert AnswerKey(1) == "q1";
    MultipleChoiceExample(qs[1]);
    StudentStringsOfTexts(["0", "2"]);
    assert seq(2, i requires 0 <= i < 2 => Str(["0", "2"][i])) == [Str("0"), Str("2")];
    StudentStringsOfTexts(["2", "0", "0"]);
    assert seq(3, i requires 0 <= i < 3 => Str(["2", "0", "0"][i])) == [Str("2"), Str("0"), Str("0")];
    assert StringSet(["0", "2"]) == StringSet(["2", "0", "0"]);
    MultipleChoiceDependsOnSetOnly(qs[1], Arr([Str("0"), Str("2")]), Arr([Str("2"), Str("0"), Str("0")]));
  }

  /** Answers "1" and ["0", "2"] earn all 5 points and the grade 6. */
  lemma ExampleAllRight()
    ensures TotalPoints(ExampleTest(), 2) == 5 && EarnedPoints(ExampleTest(), ExampleRightAnswers(), 2) == 5
            && GradeOf(5, 5) == 6.0
  {
    ExampleSingleRight();
    ExampleMultipleRight();
  }

  /** Answers "0" and ["0"] earn nothing and the grade 2. */
  lemma ExampleAllWrong()
    ensures var answers: AnswerBag := [("q0", Str("0")), ("q1", Arr([Str("0")]))];
            TotalPoints(ExampleTest(), 2) == 5 && EarnedPoints(ExampleTest(), answers, 2) == 0
            && GradeOf(5, 0) == 2.0
  {
    var qs := ExampleTest();
    assert AnswerKey(0) == "q0" && AnswerKey(1) == "q1";
    SingleChoiceMatchesIndex(qs[0], 1, 0, []);
    assert IntToString(0) + [] == "0";
    MultipleChoiceExample(qs[1]);
  }

  /** Open questions count in the total: a right single-choice answer next to
      an open question of the same weight grades 4, not 6. */
  lemma OpenQuestionLowersPerfectScore()
    ensures var qs := [Question(Str("A"), Str("single"), Undefined, Num(0), Undefined),
                       Question(Str("B"), Str("open"), Undefined, Undefined, Undefined)];
            var answers: AnswerBag := [("q0", Str("0")), ("q1", Str("essay"))];
            TotalPoints(qs, 2) == 2 && EarnedPoints(qs, answers, 2) == 1 && GradeOf(2, 1) == 4.0
  {
    var qs := [Question(Str("A"), Str("single"), Undefined, Num(0), Undefined),
               Question(Str("B"), Str("open"), Undefined, Undefined, Undefined)];
    assert AnswerKey(0) == "q0";
    SingleChoiceMatchesIndex(qs[0], 0, 0, []);
    assert IntToString(0) + [] == "0";
  }
}
