/**
 * The slice of JavaScript value semantics the dashboard's fallbacks depend on:
 * truthiness, `a || b`, `a ?? b`, and `Boolean(v)`.
 */
module Js {
  /** A field read from an API record. Numbers are integral here (ids, counts, scores); objects are opaque. */
  datatype Value = Undefined | Null | Bool(b: bool) | Num(n: int) | NaN | Str(s: string) | Object

  /** ToBoolean: `false`, `0`, `NaN`, `""`, `null` and `undefined` are falsy; every object is truthy. */
  predicate Truthy(v: Value) {
    match v
    case Undefined => false
    case Null => false
    case Bool(b) => b
    case Num(n) => n != 0
    case NaN => false
    case Str(s) => s != ""
    case Object => true
  }

  predicate Nullish(v: Value) {
    v.Undefined? || v.Null?
  }

  /** `a || b`. */
  function Or(a: Value, b: Value): Value {
    if Truthy(a) then a else b
  }

  /** `a ?? b`. */
  function Coalesce(a: Value, b: Value): Value {
    if Nullish(a) then b else a
  }

  /** Reference reading of a fallback chain: the first truthy candidate, or `last` when there is none. */
  function FirstTruthy(candidates: seq<Value>, last: Value): Value {
    if |candidates| == 0 then last
    else if Truthy(candidates[0]) then candidates[0]
    else FirstTruthy(candidates[1..], last)
  }

  /** Reference reading of a `??` chain: the first candidate that is neither null nor undefined, or `last`. */
  function FirstDefined(candidates: seq<Value>, last: Value): Value {
    if |candidates| == 0 then last
    else if !Nullish(candidates[0]) then candidates[0]
    else FirstDefined(candidates[1..], last)
  }

  /** The first truthy candidate wins, whatever comes after it. */
  lemma {:induction false} FirstTruthyPicks(candidates: seq<Value>, last: Value, k: nat)
    requires k < |candidates| && Truthy(candidates[k])
    requires forall m :: 0 <= m < k ==> !Truthy(candidates[m])
    ensures FirstTruthy(candidates, last) == candidates[k]
    decreases k
  {
    if k > 0 {
      assert forall m :: 0 <= m < k - 1 ==> candidates[1..][m] == candidates[m + 1];
      FirstTruthyPicks(candidates[1..], last, k - 1);
    }
  }

  /** With no truthy candidate the chain yields its last operand. */
  lemma {:induction false} FirstTruthyFallsThrough(candidates: seq<Value>, last: Value)
    requires forall m :: 0 <= m < |candidates| ==> !Truthy(candidates[m])
    ensures FirstTruthy(candidates, last) == last
    decreases |candidates|
  {
    if |candidates| > 0 {
      assert forall m :: 0 <= m < |candidates| - 1 ==> candidates[1..][m] == candidates[m + 1];
      FirstTruthyFallsThrough(candidates[1..], last);
    }
  }

  /** The first defined candidate wins, even when it is 0 or "". */
  lemma {:induction false} FirstDefinedPicks(candidates: seq<Value>, last: Value, k: nat)
    requires k < |candidates| && !Nullish(candidates[k])
    requires forall m :: 0 <= m < k ==> Nullish(candidates[m])
    ensures FirstDefined(candidates, last) == candidates[k]
    decreases k
  {
    if k > 0 {
      assert forall m :: 0 <= m < k - 1 ==> candidates[1..][m] == candidates[m + 1];
      FirstDefinedPicks(candidates[1..], last, k - 1);
    }
  }

  /** A chain whose last operand is truthy (the "-" placeholder) always yields a truthy value. */
  lemma {:induction false} FirstTruthyIsTruthy(candidates: seq<Value>, last: Value)
    requires Truthy(last)
    ensures Truthy(FirstTruthy(candidates, last))
    decreases |candidates|
  {
    if |candidates| > 0 {
      FirstTruthyIsTruthy(candidates[1..], last);
    }
  }

  /** `||` and `??` differ exactly on the falsy values that are defined: `0`, `""`, `false`, `NaN`. */
  lemma OrVersusCoalesce(a: Value, b: Value)
    ensures Or(a, b) != Coalesce(a, b) ==> !Truthy(a) && !Nullish(a) && a != b
    ensures !Truthy(a) && !Nullish(a) ==> Or(a, b) == b && Coalesce(a, b) == a
  {
  }

  /** A written-out chain `a || b || last` is the reference chain over `[a, b]`. */
  lemma OrChain2(a: Value, b: Value, last: Value)
    ensures Or(Or(a, b), last) == FirstTruthy([a, b], last)
  {
    assert [a, b][1..] == [b];
    assert [b][1..] == [];
    assert FirstTruthy([b], last) == Or(b, last);
  }

  /** A written-out chain `a || b || c || last` is the reference chain over `[a, b, c]`. */
  lemma OrChain3(a: Value, b: Value, c: Value, last: Value)
    ensures Or(Or(Or(a, b), c), last) == FirstTruthy([a, b, c], last)
  {
    assert [a, b, c][1..] == [b, c];
    OrChain2(b, c, last);
  }

  /** A written-out chain `a ?? b ?? last` is the reference chain over `[a, b]`. */
  lemma CoalesceChain2(a: Value, b: Value, last: Value)
    ensures Coalesce(Coalesce(a, b), last) == FirstDefined([a, b], last)
  {
    assert [a, b][1..] == [b];
    assert [b][1..] == [];
    assert FirstDefined([b], last) == Coalesce(b, last);
  }

  /** A written-out chain `a ?? b ?? c ?? last` is the reference chain over `[a, b, c]`. */
  lemma CoalesceChain3(a: Value, b: Value, c: Value, last: Value)
    ensures Coalesce(Coalesce(Coalesce(a, b), c), last) == FirstDefined([a, b, c], last)
  {
    assert [a, b, c][1..] == [b, c];
    CoalesceChain2(b, c, last);
  }

  /** The placeholder shown for a missing cell. */
  const Dash: Value := Str("-")
}
