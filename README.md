# Classroom test platform: grading and review core

This project models the grading logic of the quiz server in `NEW/server.js`
and proves properties about it. Teachers write tests made of single-choice,
multiple-choice and open questions. Students submit answers. The server then:

- grades the objective questions in `/api/grade/:id`: it adds up the total and
  earned points and maps them to a grade on the 2–6 scale;
- rebuilds a per-question detail view in `/api/submission/:id`, with a
  fallback for submissions whose test has been deleted;
- records a teacher's manual points for one question in
  `/api/submission-points/:id`.

The database rows and request bodies reach the model as parsed JSON values.

## Layout

| file | module | what it holds |
|---|---|---|
| `js_values.dfy` | `JsValues` | parsed JSON values (`Value`), truthiness, `String(v)`, decimal notation, `parseInt`, and the round trip `parseInt(String(n)) == n` |
| `answers.dfy` | `Answers` | the answer bag (keys in `Object.keys` order, no key twice), `answers[key]`, the key `q${i}`, removing the identity fields, and normalising a multiple-choice answer |
| `scoring.dfy` | `Scoring` | questions, their weight `parseInt(q.points) \|\| 1`, the set-equality test, and `Judge`, the verdict for one question |
| `grading.dfy` | `Grading` | the grading loop (`GradeSubmission`, a `while` loop with invariants), the 2–6 grade, and lemmas about totals and grades |
| `submission_view.dfy` | `SubmissionView` | detail entries, the fallback loop for a deleted test (`BuildDetail`), and agreement with grading |
| `manual_points.dfy` | `ManualPoints` | the manual-points object, updated in place by a class method, and what the detail view shows afterwards |

## Behaviour of the code that the model keeps

- Every question adds its weight to `totalPoints`, whatever its type (line
  143). Open and unknown-type questions earn nothing but still lower the grade
  (`OpenQuestionLowersPerfectScore`). So the automatic grade of a test with
  open questions stays below 6 even when every objective answer is right,
  although open questions are meant to be graded by hand. The model follows
  the code.
- The weight is `parseInt(q.points) || 1`. A missing weight, `0`, `""` or
  unparsable text gives weight 1. A negative number is kept as it is.
- A single-choice question scores only when `q.correct` is a number, because
  `===` does not convert types. `parseInt` reads the leading integer, so `"1"`,
  `" 1"`, `"+1"`, `"1.9"`, `"1abc"`, the number 1 and `["1"]` all match the key 1.
- A multiple-choice key that is truthy but not an array (a number, a
  non-empty string, `true`) makes `.map` throw a `TypeError`. It is thrown
  inside the database callback, and no `uncaughtException` handler is
  installed, so by default it ends the Node process: no grade is stored and
  the server stops answering every client, not only this one. The grading
  pass and the detail view each have their own copy of the comparison. They
  crash on exactly the same tests (`AnyMalformed`,
  `ViewIsCorrectAgreesWithJudge`), and the model returns `Crashed` in both.
- The detail view shows `q.points || 1` without calling `parseInt`. This can
  differ from the weight used for grading: the string `"0"` and the boolean
  `true` are shown as they are but graded with weight 1.
- The deleted-test fallback runs whenever the question list is empty and there
  are stored answers. That includes a test that still exists but has no
  questions, not only a deleted one.
- Manual points are stored under `String(questionIndex)`, and the detail view
  reads them under the decimal form of the index. So `2` and `"2"` both work,
  while `"02"`, `-1` or a missing index are stored but never shown. The index
  `"__proto__"` stores nothing at all unless the stored object already has
  an own property of that name: the inherited `__proto__` setter ignores a
  number.

## Model

| member | source | states |
|---|---|---|
| `JsValues.Truthy` | NEW/server.js:151 | JavaScript truthiness: `undefined`, `null`, `false`, `0` and `""` are falsy, every other value (arrays included) is truthy |
| `JsValues.ToString` | NEW/server.js:152 | `String(v)`: `"undefined"`, `"null"`, `"true"`/`"false"`, the decimal form of a number, a string itself, and an array joined with commas, where `null` and `undefined` elements join as `""` |
| `JsValues.Join` | NEW/server.js:148 | `Array.prototype.join` with the separator `,`, as `String` applies it to an array answer |
| `JsValues.ParseInt` | NEW/server.js:148 | `parseInt(s)` in base 10: skip leading white space, then read a signed decimal prefix; `NaN` when no digit follows (properties shown by `ParseIntOfIntToStringPrefix`) |
| `JsValues.ParseSigned` | NEW/server.js:148 | `parseInt` after the white space: an optional `-` or `+`, then the longest run of digits |
| `JsValues.ReadDigits` | NEW/server.js:148 | the value of the longest run of leading decimal digits, read left to right |
| `JsValues.ParseIntValue` | NEW/server.js:142 | `parseInt(v)` converts `v` with `String` first |
| `JsValues.NatToString` | NEW/server.js:246 | `String(i)` for an index: a non-empty run of digits without a leading zero |
| `JsValues.IntToString` | NEW/server.js:152 | `String(n)` for an integer: `-` before the decimal form of a negative number |
| `JsValues.ParseIntOfIntToStringPrefix` | NEW/server.js:148 | `parseInt` reads back the decimal form of any integer and stops at the first non-digit after it |
| `JsValues.ParseIntValueOfNum` | NEW/server.js:142 | `parseInt` of a numeric property returns that number |
| `JsValues.NatToStringInjective` | NEW/server.js:246 | different indices have different decimal property names |
| `Answers.LookupAt` | NEW/server.js:251-254 | `answers[key]` for the k-th key of the bag is the k-th stored answer |
| `Answers.AnswerKeyInjective` | NEW/server.js:145 | different questions read different answer keys `q${i}` |
| `Answers.SubmittedAnswers` | NEW/server.js:125-130 | the stored answers lack `studentName` and `studentClass`; every other property is kept with its value and nothing else is added; the result is a subsequence of the body, so the kept properties stay in their order |
| `Answers.Without` | NEW/server.js:129-130 | `delete` of a set of keys: exactly the entries with other keys remain, as a subsequence in their order, each reading as before, the deleted keys reading `undefined` |
| `Answers.SubmittedAnswersExample` | NEW/server.js:125-130 | a body with the identity fields between the answers stores exactly `q0` then `q1` |
| `Answers.AnswerKey` | NEW/server.js:145 | `` `q${i}` ``: the letter `q` followed by the decimal form of i (distinct per question by `AnswerKeyInjective`) |
| `Answers.StringSet` | NEW/server.js:150-152 | `new Set(xs)`: the strings of xs, with order and repetitions forgotten |
| `Answers.Lookup` | NEW/server.js:145 | `answers[key]`: the value stored under the key, or `undefined` when the key is missing (properties shown by `LookupAt`) |
| `Answers.StudentStrings` | NEW/server.js:151-152 | an array answer is taken as is, a truthy scalar as a one-element list, a falsy one as the empty list, and each element goes through `String` (properties shown by `MultipleChoiceNormalisesScalars`, `StudentStringsOfTexts`) |
| `Scoring.QuestionPoints` | NEW/server.js:142 | the weight is never 0; a non-zero number is its own weight; missing, `0` and `""` weigh 1 |
| `Scoring.Weight` | NEW/server.js:142 | `parsed \|\| 1`: never 0; a non-zero number is kept; `NaN` and 0 weigh 1 |
| `Scoring.CorrectStrings` | NEW/server.js:150 | `(q.correct \|\| []).map(String)`: a falsy key gives no strings, an array gives its elements' strings, any other truthy key throws |
| `Scoring.Malformed` | NEW/server.js:150 | a multiple-choice question whose key is truthy but not an array, so `(q.correct \|\| []).map` throws |
| `Scoring.AnyMalformed` | NEW/server.js:141-157 | some question of the test is malformed; the crash clauses of `Judge`, `GradeSubmission` and `BuildDetail` are stated with it |
| `Scoring.SameStringSet` | NEW/server.js:154 | equal size plus every correct string present is exactly set equality |
| `Scoring.Judge` | NEW/server.js:147-157 | throws exactly on a malformed multiple-choice key; single choice scores iff a numeric key equals `parseInt` of the answer; multiple choice scores iff the two string sets are equal; other types never score |
| `Scoring.SingleChoiceMatchesIndex` | NEW/server.js:147-148 | with numeric key k, the answer m (as text, text plus a non-digit tail, or a number) scores iff m == k |
| `Scoring.SingleChoiceNeedsNumericKey` | NEW/server.js:148 | a non-numeric single-choice key never scores |
| `Scoring.MultipleChoiceDependsOnSetOnly` | NEW/server.js:150-154 | answers with the same string set get the same verdict: order and duplicates do not matter |
| `Scoring.MultipleChoiceNoPartialCredit` | NEW/server.js:154-156 | a strict subset or strict superset of the key scores nothing |
| `Scoring.MultipleChoiceNormalisesScalars` | NEW/server.js:151 | a truthy scalar is judged as a one-element list; a falsy answer is judged as the empty list |
| `Scoring.MultipleChoiceExample` | NEW/server.js:150-156 | key `[0, 2]`: `["2","0","0"]` scores; `["0"]` and `["0","1","2"]` do not |
| `Scoring.StudentStringsOfTexts` | NEW/server.js:152 | a list of strings normalises to itself |
| `Grading.TotalPoints` | NEW/server.js:141-143 | `totalPoints` after the first n questions: the sum of every question's weight, whatever its type |
| `Grading.Credit` | NEW/server.js:145-156 | what question i adds to `earnedPoints`: its whole weight when `Judge` awards it, else 0 |
| `Grading.EarnedPoints` | NEW/server.js:141-156 | `earnedPoints` after the first n questions: the sum of their credits |
| `Grading.GradeSubmission` | NEW/server.js:138-165 | the loop crashes iff some question is malformed; otherwise it returns the total of all weights, the weights of the scoring questions, and `GradeOf` of the two |
| `Grading.ScoreQuestion` | NEW/server.js:145-157 | the loop body's verdict for one question is `Judge` |
| `Grading.ComputeGrade` | NEW/server.js:160-165 | the assignment and the two clamping `if`s compute `GradeOf` |
| `Grading.GradeOf` | NEW/server.js:160-165 | the grade lies in [2, 6]; it is 2 when the total is not positive or nothing is earned; 6 when earned ≥ total > 0; otherwise `2 + 4·earned/total` |
| `Grading.Clamp` | NEW/server.js:164-165 | the clamped grade lies in [2, 6] and a grade already in range is unchanged |
| `Grading.EarnedWithinTotal` | NEW/server.js:141-156 | with positive weights, 0 ≤ earned ≤ total and total ≥ number of questions |
| `Grading.GradeIsLinearForPositiveWeights` | NEW/server.js:160-163 | with positive weights on a non-empty test, the clamp never changes the grade |
| `Grading.NoObjectiveQuestionsEarnNothing` | NEW/server.js:141-158 | a test without single- or multiple-choice questions earns 0 and grades 2 |
| `Grading.AllAwardedEarnsTotal` | NEW/server.js:141-165 | if every question scores, earned == total; with positive weights the grade is 6 |
| `Grading.GradeMonotone` | NEW/server.js:160-165 | more earned points never lower the grade |
| `Grading.ExampleAllRight` | NEW/server.js:138-165 | single key 1 (2 pts) plus multiple key [0,2] (3 pts), answered "1" and ["0","2"]: 5 of 5 points, grade 6 |
| `Grading.ExampleAllWrong` | NEW/server.js:138-165 | the same test answered "0" and ["0"]: 0 of 5 points, grade 2 |
| `Grading.OpenQuestionLowersPerfectScore` | NEW/server.js:141-143 | a right single-choice answer next to an open question of equal weight grades 4 |
| `SubmissionView.QuestionsOrEmpty` | NEW/server.js:221 | the stored question list, or no questions when the test row is gone |
| `SubmissionView.ViewIsCorrect` | NEW/server.js:229-235 | the view's own `isCorrect` comparison, or the `TypeError` its `.map` throws |
| `SubmissionView.ViewIsCorrectAgreesWithJudge` | NEW/server.js:229-235 | the view's comparison throws exactly when the grading pass's does (lines 147-156), and marks correct exactly the answers that earn points |
| `SubmissionView.DisplayPoints` | NEW/server.js:241 | `q.points \|\| 1`: the stored points if truthy, else 1, not parsed |
| `SubmissionView.ManualFor` | NEW/server.js:246 | `manualPoints[i]`: the points stored under the decimal form of i, if any |
| `SubmissionView.EntryFor` | NEW/server.js:238-247 | the object built for one question: its text, type, shown points, options, key, the answer, `isCorrect` and the manual points |
| `SubmissionView.QuestionEntries` | NEW/server.js:225-248 | one entry per question, in order (properties shown by `EntryAt`) |
| `SubmissionView.DeletedEntries` | NEW/server.js:250-259 | one placeholder per stored answer key, in key order, holding `answers[key]`, 0 points and type `unknown` |
| `SubmissionView.BuildDetail` | NEW/server.js:221-259 | crashes iff a question is malformed; otherwise gives one entry per question or, with no questions, the placeholders |
| `SubmissionView.EntryAt` | NEW/server.js:225-248 | entry i belongs to question i and holds `answers["q"+i]`, `manualPoints[i]` and the key |
| `SubmissionView.ViewAgreesWithGrading` | NEW/server.js:229-235 | the weights of the entries the view marks `isCorrect` add up to the earned points of the grading pass |
| `SubmissionView.IsCorrectMeansCredited` | NEW/server.js:229-235 | the view marks an entry correct iff the grading pass credited that question |
| `SubmissionView.DisplayPointsMatchWeight` | NEW/server.js:241 | for numeric or missing points, the points shown equal the graded weight |
| `SubmissionView.DisplayPointsDifferForStringZero` | NEW/server.js:241 | points `"0"` are shown as `"0"` but graded as 1 |
| `SubmissionView.DisplayPointsDifferForTrue` | NEW/server.js:241 | points `true` are shown as `true` but graded as 1 |
| `ManualPoints.PropertyKey` | NEW/server.js:282 | a property key is `String(questionIndex)`, so `2` and `"2"` name the same property |
| `ManualPoints.SetterIgnores` | NEW/server.js:282 | assigning to `"__proto__"` stores nothing when the object has no own property of that name |
| `ManualPoints.ManualPointsTable.constructor` | NEW/server.js:281 | the table starts as the stored object |
| `ManualPoints.ManualPointsTable.Assign` | NEW/server.js:282 | sets key `String(questionIndex)` to the value, except that an inherited `__proto__` setter leaves the object unchanged; every other key is unchanged |
| `ManualPoints.UpdateManualPoints` | NEW/server.js:281-282 | the new object is the stored one with the assigned key set to the value (the old keys plus that one, the others keeping theirs); an ignored `__proto__` assignment returns the stored object |
| `ManualPoints.AssignedPointsShowAtIndex` | NEW/server.js:282 | points set for question i, by number or decimal string, are always stored and appear on entry i of the detail view; every other entry is unchanged |
| `ManualPoints.UnshownKeyLeavesView` | NEW/server.js:282 | a key that is no index's decimal form never changes the detail view |
| `ManualPoints.UnusualKeyIsNoIndex` | NEW/server.js:282 | the empty key, a key not starting with a digit, and a longer key starting with `0` are no index's decimal form |
| `ManualPoints.TrailingTextKeyIsNoIndex` | NEW/server.js:282 | digits followed by a non-digit (`"1a"`, `"2.5"`, `"3,4"`) are no index's decimal form |

## Left out

- HTTP routing, request and response objects, status codes, and the response
  fields that are passed through (`studentName`, `testTitle`, `autoGrade` and
  so on, lines 261-272): these are I/O plumbing.
- SQLite access and the column migration with its timer: these are database
  I/O and timing.
- `JSON.parse` and `JSON.stringify` of the stored columns: the model takes the
  parsed values as given. Objects in places where the code expects a scalar or
  an array are not modelled. Neither is a `questions` column that is not an
  array, nor the `[]` that the grading handler uses when parsing fails.
- Grading.GradeSubmission, SubmissionView.BuildDetail: a `null` entry in the
  questions array makes `q.points` (line 142) and `q.type` (line 229) throw a
  `TypeError`. The model's `Question` is always an object, so it cannot hold
  that entry, and the "crashes exactly when" clauses hold only for arrays
  of objects. Other non-object entries behave like a `Question` whose
  properties are all missing.
- `grade.toFixed(2)` and `parseFloat(points)`: the grade is an exact `real`
  and a manual point value is a given `real`. `NaN` is not a possible value.
- Numbers are integers. Fractional JSON numbers (such as `2.5` points, which
  `parseInt` reads as 2), exponent notation and the precision limit above
  2^53 are not modelled.
- `parseInt` reads only decimal numbers; its `0x` hexadecimal prefix is not
  modelled. Its white-space set is the ASCII set plus U+00A0, U+2028, U+2029
  and U+FEFF, not every Unicode space separator.
- `Object.keys` lists integer-like keys (such as `"0"`) first, in ascending
  order. The answer bag is taken in `Object.keys` order. That is also the
  order `JSON.stringify` writes, so the stored answers keep it. The model does
  not derive that order from the order in which the request lists the
  properties.
- The save-review and legacy manual-grade endpoints (lines 288-302) write
  columns directly and contain no logic.
