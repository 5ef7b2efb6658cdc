/** The patient-answer record the questionnaire produces and the evaluator
    reads: a partial mapping from field identifier to a dynamically shaped
    JavaScript value. */
module Answers {

  /** One answer value. `Absent` is a missing (or `undefined`) field; `Str` a
      single-choice or free-text answer; `Arr` a multi-select answer; `Bool` a
      checkbox; `Dict` a plain object such as the per-group timing answers. */
  datatype Value =
    | Absent
    | Str(s: string)
    | Arr(items: seq<string>)
    | Bool(b: bool)
    | Dict(entries: map<string, string>)

  /** `Partial<QuestionnaireData>`: fields that are not keys are absent. */
  type Record = map<string, Value>

  /** `data[field]`: an unknown field reads as `undefined`. */
  function Get(d: Record, field: string): Value {
    if field in d then d[field] else Absent
  }

  /** JavaScript `Boolean(value)`: the empty string, `false` and `undefined` are
      falsy; every array (even an empty one) and every object is truthy. */
  predicate Truthy(v: Value) {
    match v
    case Absent => false
    case Str(s) => s != ""
    case Arr(_) => true
    case Bool(b) => b
    case Dict(_) => true
  }

  /** "`v` is `x`, or `v` is an array holding `x`": the membership notion every
      value test of the evaluator is stated in. */
  predicate Holds(v: Value, x: string) {
    (v.Arr? && x in v.items) || v == Str(x)
  }
}
