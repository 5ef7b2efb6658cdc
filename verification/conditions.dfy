/** The condition language of the rule catalog: a leaf tests one answer field;
    `all` and `any` nodes combine sub-conditions. */
module Conditions {
  import opened Wrappers
  import opened Seqs
  import opened Answers

  /** A single-field test. Several test modes may be present at once; the
      evaluator then applies a fixed precedence. */
  datatype FieldCondition = FieldCondition(
    from: string,
    equals: Option<string>,
    includes: Option<string>,
    anyOf: Option<seq<string>>,
    notContains: Option<string>)

  /** A condition tree; each node has exactly one shape. */
  datatype Condition =
    | Leaf(test: FieldCondition)
    | All(all: seq<Condition>)
    | Any(any: seq<Condition>)

  /** `evaluateFieldCondition`. The first present test mode decides, in the
      order `equals`, `includes`, `any_of`, `not_contains`; without one, the
      field's truthiness decides. `any_of` is "present" even when empty, while
      an empty `not_contains` string counts as absent; `not_contains` against a
      value that is neither array nor string falls through to truthiness. */
  function EvalField(c: FieldCondition, d: Record): (r: bool)
    ensures c.equals.Some? ==> (r <==> Holds(Get(d, c.from), c.equals.value))
    ensures c.equals.None? && c.includes.Some? ==>
              (r <==> Holds(Get(d, c.from), c.includes.value))
    ensures c.equals.None? && c.includes.None? && c.anyOf.Some? ==>
              (r <==> exists x :: x in c.anyOf.value && Holds(Get(d, c.from), x))
    ensures c.equals.None? && c.includes.None? && c.anyOf.None? &&
            c.notContains.Some? && c.notContains.value != "" ==>
              (r <==> if Get(d, c.from).Arr? || Get(d, c.from).Str?
                      then !Holds(Get(d, c.from), c.notContains.value)
                      else Truthy(Get(d, c.from)))
    ensures c.equals.None? && c.includes.None? && c.anyOf.None? &&
            (c.notContains.None? || c.notContains.value == "") ==>
              (r <==> Truthy(Get(d, c.from)))
  {
    var value := Get(d, c.from);
    if c.equals.Some? then
      if value.Arr? then Includes(value.items, c.equals.value)
      else value == Str(c.equals.value)
    else if c.includes.Some? then
      if value.Arr? then Includes(value.items, c.includes.value)
      else value == Str(c.includes.value)
    else if c.anyOf.Some? then
      if value.Arr? then SomeIn(value.items, c.anyOf.value)
      else if value.Str? then Includes(c.anyOf.value, value.s)
      else false
    else if c.notContains.Some? && c.notContains.value != "" && value.Arr? then
      !Includes(value.items, c.notContains.value)
    else if c.notContains.Some? && c.notContains.value != "" && value.Str? then
      value.s != c.notContains.value
    else
      Truthy(value)
  }

  /** `evaluateCondition`: `all` is the conjunction of its children (true when
      empty), `any` their disjunction (false when empty), a leaf is a field test. */
  function Eval(c: Condition, d: Record): (r: bool)
    ensures c.All? ==> (r <==> forall i :: 0 <= i < |c.all| ==> Eval(c.all[i], d))
    ensures c.Any? ==> (r <==> exists i :: 0 <= i < |c.any| && Eval(c.any[i], d))
    ensures c.Leaf? ==> (r <==> EvalField(c.test, d))
    decreases c
  {
    match c
    case All(cs) => AllHold(cs, d)
    case Any(cs) => AnyHolds(cs, d)
    case Leaf(f) => EvalField(f, d)
  }

  /** `conditions.every(inner => evaluateCondition(inner, data))`. */
  function AllHold(cs: seq<Condition>, d: Record): (r: bool)
    ensures r <==> forall i :: 0 <= i < |cs| ==> Eval(cs[i], d)
    decreases cs
  {
    if cs == [] then true
    else Eval(cs[0], d) && AllHold(cs[1..], d)
  }

  /** `conditions.some(inner => evaluateCondition(inner, data))`. */
  function AnyHolds(cs: seq<Condition>, d: Record): (r: bool)
    ensures r <==> exists i :: 0 <= i < |cs| && Eval(cs[i], d)
    decreases cs
  {
    if cs == [] then false
    else Eval(cs[0], d) || AnyHolds(cs[1..], d)
  }

  // ---------------------------------------------------------------------------
  // Monotonicity of positive conditions
  // ---------------------------------------------------------------------------

  /** A leaf whose decisive test is `equals`, `includes` or `any_of`: it never
      reaches the negative `not_contains` test or the truthiness fallback. */
  predicate PositiveTest(f: FieldCondition) {
    f.equals.Some? || f.includes.Some? || f.anyOf.Some?
  }

  /** Every leaf of the tree is a positive test. */
  predicate Positive(c: Condition)
    decreases c
  {
    match c
    case Leaf(f) => PositiveTest(f)
    case All(cs) => forall i :: 0 <= i < |cs| ==> Positive(cs[i])
    case Any(cs) => forall i :: 0 <= i < |cs| ==> Positive(cs[i])
  }

  /** `big` answers at least what `small` answers: a field absent in `small`
      may take any value in `big`; an array may gain elements; any other
      value stays the same. */
  predicate Extends(big: Record, small: Record) {
    forall f :: f in small ==>
      Get(small, f) == Absent ||
      Get(small, f) == Get(big, f) ||
      (Get(small, f).Arr? && Get(big, f).Arr? &&
       forall x :: x in Get(small, f).items ==> x in Get(big, f).items)
  }

  /** A positive leaf that holds on `small` holds on every extension of it. */
  lemma PositiveLeafMonotone(f: FieldCondition, small: Record, big: Record)
    requires PositiveTest(f) && Extends(big, small)
    requires EvalField(f, small)
    ensures EvalField(f, big)
  {
    var v := Get(small, f.from);
    if f.equals.None? && f.includes.None? {
      var x :| x in f.anyOf.value && Holds(v, x);
      assert Holds(Get(big, f.from), x);
    }
  }

  /** Monotonicity of triggering: a condition built only from positive tests
      that holds on a record holds on every record that answers at least as
      much. */
  lemma {:induction false} PositiveMonotone(c: Condition, small: Record, big: Record)
    requires Positive(c) && Extends(big, small)
    requires Eval(c, small)
    ensures Eval(c, big)
    decreases c
  {
    match c
    case Leaf(f) =>
      PositiveLeafMonotone(f, small, big);
    case All(cs) =>
      forall i | 0 <= i < |cs|
        ensures Eval(cs[i], big)
      {
        PositiveMonotone(cs[i], small, big);
      }
    case Any(cs) =>
      var i :| 0 <= i < |cs| && Eval(cs[i], small);
      PositiveMonotone(cs[i], small, big);
  }

  // ---------------------------------------------------------------------------
  // The empty record
  // ---------------------------------------------------------------------------

  /** The shape every catalog condition has: a positive leaf, or a non-empty
      `all` of positive leaves. */
  predicate LeafOrAllOfLeaves(c: Condition) {
    match c
    case Leaf(f) => PositiveTest(f)
    case All(cs) => |cs| > 0 && forall i :: 0 <= i < |cs| ==> cs[i].Leaf? && PositiveTest(cs[i].test)
    case Any(_) => false
  }

  /** Such a condition never holds on the empty record: its first positive
      leaf reads an absent field. */
  lemma ShallowPositiveFailsOnEmpty(c: Condition)
    requires LeafOrAllOfLeaves(c)
    ensures !Eval(c, map[])
  {
    var f := if c.Leaf? then c.test else c.all[0].test;
    assert Get(map[], f.from) == Absent;
    assert !EvalField(f, map[]) by {
      if f.equals.None? && f.includes.None? {
        assert forall x :: !Holds(Absent, x);
      }
    }
  }
}
