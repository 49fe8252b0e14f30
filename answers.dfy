/** The answer bag a student submits: the request body of `/api/grade/:id`,
    keyed `q0`, `q1`, … by question position, and the same object as it is
    stored in the `answers` column and read back by the detail view. */
module Answers {
  import opened JsValues

  /** No key occurs twice, as in any JavaScript object. */
  predicate DistinctKeys(b: seq<(string, Value)>) {
    forall i, j :: 0 <= i < j < |b| ==> b[i].0 != b[j].0
  }

  /** The properties of the answers object in `Object.keys` order, which is
      also the order `JSON.stringify` writes them in and `JSON.parse` reads
      them back in. */
  type AnswerBag = b: seq<(string, Value)> | DistinctKeys(b)

  /** `answers[key]`; a missing key reads as `undefined`. */
  function Lookup(bag: seq<(string, Value)>, key: string): Value {
    if |bag| == 0 then Undefined
    else if bag[0].0 == key then bag[0].1
    else Lookup(bag[1..], key)
  }

  lemma {:induction false} LookupAt(bag: AnswerBag, k: nat)
    requires k < |bag|
    ensures Lookup(bag, bag[k].0) == bag[k].1
  {
    if k > 0 {
      var rest: AnswerBag := bag[1..];
      LookupAt(rest, k - 1);
    }
  }

  /** The property under which the answer to question `i` is submitted: `q${i}`. */
  function AnswerKey(i: nat): string {
    "q" + NatToString(i)
  }

  lemma AnswerKeyInjective(i: nat, j: nat)
    ensures AnswerKey(i) == AnswerKey(j) ==> i == j
  {
    if AnswerKey(i) == AnswerKey(j) {
      assert NatToString(i) == AnswerKey(i)[1..];
      assert NatToString(j) == AnswerKey(j)[1..];
      NatToStringInjective(i, j);
    }
  }

  /** `r` is `b` with some entries left out, the others in their order. */
  predicate IsSubsequence(r: seq<(string, Value)>, b: seq<(string, Value)>)
    decreases |b|
  {
    |r| == 0 || (|b| > 0 && ((r[0] == b[0] && IsSubsequence(r[1..], b[1..])) || IsSubsequence(r, b[1..])))
  }

  /** The entries of `b` whose key is not in `drop`, in order. */
  function Without(b: seq<(string, Value)>, drop: set<string>): (r: seq<(string, Value)>)
    ensures forall p :: p in r ==> p in b && p.0 !in drop
    ensures forall p :: p in b && p.0 !in drop ==> p in r
    ensures forall key :: Lookup(r, key) == if key in drop then Undefined else Lookup(b, key)
    ensures DistinctKeys(b) ==> DistinctKeys(r)
    ensures IsSubsequence(r, b)
  {
    if |b| == 0 then []
    else
      var rest := Without(b[1..], drop);
      if b[0].0 in drop then rest
      else
        assert DistinctKeys(b) ==> forall p :: p in rest ==> p.0 != b[0].0 by {
          if DistinctKeys(b) {
            forall p | p in rest ensures p.0 != b[0].0 {
              var j :| 0 <= j < |b[1..]| && b[1..][j] == p;
              assert b[j + 1] == p;
            }
          }
        }
        [b[0]] + rest
  }

  /** The body after `delete answers.studentName; delete answers.studentClass`:
      what is stored as the submission's answers. */
  function SubmittedAnswers(body: AnswerBag): (r: AnswerBag)
    ensures Lookup(r, "studentName") == Undefined && Lookup(r, "studentClass") == Undefined
    ensures forall key :: key != "studentName" && key != "studentClass" ==> Lookup(r, key) == Lookup(body, key)
    ensures forall i: nat :: Lookup(r, AnswerKey(i)) == Lookup(body, AnswerKey(i))
    ensures forall p :: p in r <==> p in body && p.0 != "studentName" && p.0 != "studentClass"
    ensures IsSubsequence(r, body)
  {
    assert forall i: nat :: AnswerKey(i) != "studentName" && AnswerKey(i) != "studentClass" by {
      forall i: nat ensures AnswerKey(i) != "studentName" && AnswerKey(i) != "studentClass" {
        assert AnswerKey(i)[0] == 'q';
      }
    }
    Without(body, {"studentName", "studentClass"})
  }

  /** The identity fields are dropped wherever they stand; the answers keep
      their order. */
  lemma SubmittedAnswersExample()
    ensures SubmittedAnswers([("q0", Num(1)), ("studentName", Str("Ana")), ("q1", Num(2)), ("studentClass", Str("7a"))])
            == [("q0", Num(1)), ("q1", Num(2))]
  {
  }

  /** `studentArr.map(String)` for a multiple-choice answer: an array is taken as
      it is, any other truthy value becomes a one-element list and a falsy one
      (missing, `""`, `0`) the empty list. */
  function StudentStrings(a: Value): seq<string> {
    var studentArr := if a.Arr? then a.items else if Truthy(a) then [a] else [];
    seq(|studentArr|, i requires 0 <= i < |studentArr| => ToString(studentArr[i]))
  }

  /** `new Set(xs)`: order and repetitions are forgotten. */
  function StringSet(xs: seq<string>): set<string> {
    set x | x in xs
  }
}
