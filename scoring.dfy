/** How one stored question is scored against one submitted answer, as the
    grading loop of `/api/grade/:id` and the detail view of `/api/submission/:id`
    both do it. */
module Scoring {
  import opened JsValues
  import opened Answers

  /** A question object of a test's `questions` column. Every property is a
      parsed JSON value and may be missing. */
  datatype Question = Question(text: Value, kind: Value, options: Value, correct: Value, points: Value)

  /** The outcome of an operation that either returns or throws a `TypeError`
      that nothing catches. It is thrown inside a database callback, so by
      default it ends the Node process and no client gets a response. */
  datatype Reply<+T> = Replied(value: T) | Crashed

  /** `parseInt(q.points) || 1`: the weight the grading loop gives a question.
      `NaN` and `0` both fall back to 1; a negative number is kept. */
  function QuestionPoints(q: Question): (p: int)
    ensures p != 0
    ensures q.points.Num? && q.points.n != 0 ==> p == q.points.n
    ensures q.points == Undefined || q.points == Num(0) || q.points == Str("") ==> p == 1
  {
    if q.points.Num? then ParseIntValueOfNum(q.points.n); Weight(ParseIntValue(q.points))
    else Weight(ParseIntValue(q.points))
  }

  /** `parsed || 1` for the result of a `parseInt`. */
  function Weight(parsed: Option<int>): (p: int)
    ensures p != 0
    ensures parsed.Some? && parsed.value != 0 ==> p == parsed.value
    ensures parsed.None? || parsed == Some(0) ==> p == 1
  {
    if parsed.Some? && parsed.value != 0 then parsed.value else 1
  }

  /** `(q.correct || []).map(String)`. An array is always truthy, so it is
      mapped; any other truthy key has no `.map`, and calling it throws
      (`None`); a falsy key gives `[]`. */
  function CorrectStrings(c: Value): (r: Option<seq<string>>)
    ensures r.None? <==> Truthy(c) && !c.Arr?
  {
    if c.Arr? then Some(seq(|c.items|, i requires 0 <= i < |c.items| => ToString(c.items[i])))
    else if Truthy(c) then None
    else Some([])
  }

  /** A multiple-choice question whose answer key makes the comparison throw. */
  predicate Malformed(q: Question) {
    q.kind == Str("multiple") && Truthy(q.correct) && !q.correct.Arr?
  }

  predicate AnyMalformed(qs: seq<Question>) {
    exists i | 0 <= i < |qs| :: Malformed(qs[i])
  }

  lemma {:induction false} SubsetCardinality(a: set<string>, b: set<string>)
    requires a <= b
    ensures |a| <= |b|
    decreases a
  {
    if a != {} {
      var y :| y in a;
      SubsetCardinality(a - {y}, b - {y});
    }
  }

  lemma SubsetOfSameSize(a: set<string>, b: set<string>)
    requires a <= b && |a| == |b|
    ensures a == b
  {
    if a != b {
      var x :| x in b && x !in a;
      SubsetCardinality(a, b - {x});
    }
  }

  /** The comparison the handlers make: equal sizes and every correct string
      present in the student's set. It is exactly set equality. */
  function SameStringSet(correctSet: set<string>, studentSet: set<string>): (r: bool)
    ensures r <==> correctSet == studentSet
  {
    if |correctSet| == |studentSet| && (forall x :: x in correctSet ==> x in studentSet) then
      SubsetOfSameSize(correctSet, studentSet); true
    else false
  }

  datatype Verdict = Awarded | NotAwarded | TypeError

  /** Whether the answer `a` earns question `q` its points.
      - `single`: `parseInt(a) === q.correct`, so the key must be a number.
      - `multiple`: the set of the student's strings equals the set of the key's.
      - any other type (`open`, unknown, missing) earns nothing. */
  function Judge(q: Question, a: Value): (v: Verdict)
    ensures v == TypeError <==> Malformed(q)
    ensures q.kind == Str("single") ==>
      (v == Awarded <==> q.correct.Num? && ParseIntValue(a) == Some(q.correct.n))
    ensures q.kind == Str("multiple") && !Malformed(q) ==>
      (v == Awarded <==> StringSet(CorrectStrings(q.correct).value) == StringSet(StudentStrings(a)))
    ensures q.kind != Str("single") && q.kind != Str("multiple") ==> v == NotAwarded
  {
    if q.kind == Str("single") then
      var parsed := ParseIntValue(a);
      if parsed.Some? && q.correct == Num(parsed.value) then Awarded else NotAwarded
    else if q.kind == Str("multiple") then
      match CorrectStrings(q.correct)
      case None => TypeError
      case Some(cs) =>
        if SameStringSet(StringSet(cs), StringSet(StudentStrings(a))) then Awarded else NotAwarded
    else NotAwarded
  }

  /** A single-choice question keyed by a numeric index `k` is earned by the
      decimal index `m` (a string, a number, or followed by non-digits) exactly
      when `m == k`. */
  lemma SingleChoiceMatchesIndex(q: Question, k: int, m: int, tail: string)
    requires q.kind == Str("single") && q.correct == Num(k)
    requires tail == [] || !IsDigit(tail[0])
    ensures Judge(q, Str(IntToString(m) + tail)) == Awarded <==> m == k
    ensures Judge(q, Num(m)) == Awarded <==> m == k
  {
    ParseIntOfIntToStringPrefix(m, tail);
    ParseIntValueOfNum(m);
  }

  /** A single-choice key that is not a number (a string "1", an array, missing)
      is never matched: `parseInt` yields a number or `NaN`, and `===` does not
      convert. */
  lemma SingleChoiceNeedsNumericKey(q: Question, a: Value)
    requires q.kind == Str("single") && !q.correct.Num?
    ensures Judge(q, a) == NotAwarded
  {
  }

  /** Multiple choice: only the set of submitted strings matters, so the order
      and repetitions of the selected options do not. */
  lemma {:induction false} MultipleChoiceDependsOnSetOnly(q: Question, a: Value, b: Value)
    requires q.kind == Str("multiple")
    requires StringSet(StudentStrings(a)) == StringSet(StudentStrings(b))
    ensures Judge(q, a) == Judge(q, b)
  {
  }

  /** Multiple choice: a strict subset or a strict superset of the key earns
      nothing; there is no partial credit. */
  lemma MultipleChoiceNoPartialCredit(q: Question, a: Value)
    requires q.kind == Str("multiple") && !Malformed(q)
    requires var cs := StringSet(CorrectStrings(q.correct).value);
             var ss := StringSet(StudentStrings(a));
             ss < cs || cs < ss
    ensures Judge(q, a) == NotAwarded
  {
  }

  /** Multiple choice: a truthy scalar answer counts as the one-element list
      holding it, and a falsy one (missing, `""`, `0`) as the empty list. */
  lemma MultipleChoiceNormalisesScalars(q: Question, a: Value)
    requires q.kind == Str("multiple") && !a.Arr?
    ensures Truthy(a) ==> Judge(q, a) == Judge(q, Arr([a]))
    ensures !Truthy(a) ==> Judge(q, a) == Judge(q, Arr([]))
  {
    if Truthy(a) {
      assert StudentStrings(a) == StudentStrings(Arr([a]));
    } else {
      assert StudentStrings(a) == StudentStrings(Arr([]));
    }
  }

  lemma StudentStringsOfTexts(xs: seq<string>)
    ensures StudentStrings(Arr(seq(|xs|, i requires 0 <= i < |xs| => Str(xs[i])))) == xs
  {
    var arr := seq(|xs|, i requires 0 <= i < |xs| => Str(xs[i]));
    var r := StudentStrings(Arr(arr));
    forall i | 0 <= i < |xs| ensures r[i] == xs[i] {
      assert r[i] == ToString(arr[i]);
    }
  }

  /** Numbers in the key are compared as their decimal strings: `[0, 2]` is
      earned by the strings `"2", "0", "0"`. */
  lemma MultipleChoiceExample(q: Question)
    requires q.kind == Str("multiple") && q.correct == Arr([Num(0), Num(2)])
    ensures Judge(q, Arr([Str("2"), Str("0"), Str("0")])) == Awarded
    ensures Judge(q, Arr([Str("0")])) == NotAwarded
    ensures Judge(q, Arr([Str("0"), Str("1"), Str("2")])) == NotAwarded
  {
    assert IntToString(0) == "0" && IntToString(2) == "2";
    assert CorrectStrings(q.correct).value == ["0", "2"];
    assert StringSet(["0", "2"]) == {"0", "2"};
    StudentStringsOfTexts(["2", "0", "0"]);
    assert seq(3, i requires 0 <= i < 3 => Str(["2", "0", "0"][i])) == [Str("2"), Str("0"), Str("0")];
    assert StringSet(["2", "0", "0"]) == {"0", "2"};
    assert StudentStrings(Arr([Str("0")])) == ["0"];
    assert StringSet(["0"]) == {"0"};
    StudentStringsOfTexts(["0", "1", "2"]);
    assert seq(3, i requires 0 <= i < 3 => Str(["0", "1", "2"][i])) == [Str("0"), Str("1"), Str("2")];
    assert StringSet(["0", "1", "2"]) == {"0", "1", "2"};
  }
}
