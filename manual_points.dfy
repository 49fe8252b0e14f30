/** The teacher's manual points of `/api/submission-points/:id`: the stored
    `manual_points` object is parsed, one property is set, and the object is
    written back. */
module ManualPoints {
  import opened JsValues
  import opened Answers
  import opened Scoring
  import opened SubmissionView

  /** `current[questionIndex]`: a property key is `String(questionIndex)`, so
      the number 2 and the string "2" name the same property. */
  function PropertyKey(questionIndex: Value): string {
    ToString(questionIndex)
  }

  /** Assigning a number to `obj["__proto__"]` when `obj` has no own property
      of that name calls the inherited `Object.prototype.__proto__` setter,
      which ignores anything that is not an object: nothing is stored. An own
      `"__proto__"` property (one `JSON.parse` created) is overwritten as usual. */
  predicate SetterIgnores(obj: map<string, real>, key: string) {
    key == "__proto__" && key !in obj
  }

  /** The parsed `manual_points` object, mutated in place. */
  class ManualPointsTable {
    var points: map<string, real>

    constructor (stored: map<string, real>)
      ensures points == stored
    {
      points := stored;
    }

    /** `current[questionIndex] = points`. */
    method Assign(questionIndex: Value, value: real)
      modifies this
      ensures SetterIgnores(old(points), PropertyKey(questionIndex)) ==> points == old(points)
      ensures !SetterIgnores(old(points), PropertyKey(questionIndex)) ==>
        points == old(points)[PropertyKey(questionIndex) := value]
      ensures !SetterIgnores(old(points), PropertyKey(questionIndex)) ==>
        PropertyKey(questionIndex) in points && points[PropertyKey(questionIndex)] == value
      ensures forall k :: k != PropertyKey(questionIndex) ==>
        (k in points <==> k in old(points)) && (k in points ==> points[k] == old(points)[k])
    {
      var key := PropertyKey(questionIndex);
      if !SetterIgnores(points, key) {
        points := points[key := value];
      }
    }
  }

  /** The handler's update: parse, assign one property, serialise. */
  method UpdateManualPoints(stored: map<string, real>, questionIndex: Value, value: real)
    returns (updated: map<string, real>)
    ensures SetterIgnores(stored, PropertyKey(questionIndex)) ==> updated == stored
    ensures !SetterIgnores(stored, PropertyKey(questionIndex)) ==>
      updated.Keys == stored.Keys + {PropertyKey(questionIndex)} && updated[PropertyKey(questionIndex)] == value
    ensures forall k :: k in stored && k != PropertyKey(questionIndex) ==> k in updated && updated[k] == stored[k]
    ensures !SetterIgnores(stored, PropertyKey(questionIndex)) ==>
      updated == stored[PropertyKey(questionIndex) := value]
  {
    var current := new ManualPointsTable(stored);
    current.Assign(questionIndex, value);
    updated := current.points;
  }

  /** Setting points for question `i` (by number or by its decimal string)
      always stores them, and shows them on entry `i` of the detail view and leaves every other entry
      as it was. */
  lemma {:induction false} AssignedPointsShowAtIndex(qs: seq<Question>, answers: AnswerBag,
      manual: map<string, real>, questionIndex: Value, i: nat, value: real)
    requires i < |qs|
    requires questionIndex == Num(i) || questionIndex == Str(NatToString(i))
    ensures !SetterIgnores(manual, PropertyKey(questionIndex))
    ensures var after := QuestionEntries(qs, answers, manual[PropertyKey(questionIndex) := value]);
            var before := QuestionEntries(qs, answers, manual);
            |after| == |before| && after[i].manualPoints == Some(value)
            && forall j :: 0 <= j < |qs| && j != i ==> after[j] == before[j]
  {
    var key := PropertyKey(questionIndex);
    assert key == NatToString(i);
    assert IsDigit(key[0]);
    forall j: nat | j < |qs| && j != i
      ensures ManualFor(manual[key := value], j) == ManualFor(manual, j)
    {
      NatToStringInjective(i, j);
    }
  }

  /** A key that is not the decimal string of any index (a negative number,
      a zero-padded "01", a missing index read as "undefined") is stored but
      never shown in the detail view. */
  lemma UnshownKeyLeavesView(qs: seq<Question>, answers: AnswerBag,
      manual: map<string, real>, key: string, value: real)
    requires forall j: nat :: NatToString(j) != key
    ensures QuestionEntries(qs, answers, manual[key := value]) == QuestionEntries(qs, answers, manual)
  {
    forall j: nat ensures ManualFor(manual[key := value], j) == ManualFor(manual, j) {
    }
  }

  /** Keys that are no index's decimal form: the empty key, one that does not
      start with a digit, and a longer one that starts with "0", such as "01". */
  lemma UnusualKeyIsNoIndex(key: string)
    requires |key| == 0 || !IsDigit(key[0]) || (|key| > 1 && key[0] == '0')
    ensures forall j: nat :: NatToString(j) != key
  {
  }

  /** A key with a non-digit after the digits, such as "1a" or `String(2.5)`,
      is no index's decimal form either. */
  lemma TrailingTextKeyIsNoIndex(digits: string, tail: string)
    requires AllDigits(digits) && |tail| > 0 && !IsDigit(tail[0])
    ensures forall j: nat :: NatToString(j) != digits + tail
  {
    forall j: nat ensures NatToString(j) != digits + tail {
      assert (digits + tail)[|digits|] == tail[0];
    }
  }
}
