/**
 * What the two journal pages and the reports page share: a filter form kept as a record of
 * strings keyed by field name, the query parameters built from it (only the filled fields), the
 * choice between explicit parameters and the form's, and the nested records their rows carry.
 */
module Journals {
  import opened Wrappers
  import opened Js

  /** A filter form: field name to the text or selected id ("" when unset). */
  type Filters = map<string, string>

  /** The query parameters of a request. */
  type Params = map<string, string>

  /** `f.key`: a field the form does not hold reads as `undefined`, falsy like "". */
  function Get(f: Filters, key: string): string {
    if key in f then f[key] else ""
  }

  /** The form with every one of `keys` set to "" (the initial state and `resetFilters`). */
  function Cleared(keys: seq<string>): (f: Filters)
    ensures f.Keys == set k | k in keys
    ensures forall k :: Get(f, k) == ""
  {
    map k | k in keys :: ""
  }

  /** What `buildParams` promises: exactly the filled fields among `keys`, each with its value unchanged. */
  ghost predicate KeepsFilled(keys: seq<string>, f: Filters, params: Params) {
    && (forall k :: k in params <==> k in keys && Get(f, k) != "")
    && (forall k :: k in params ==> params[k] == Get(f, k))
  }

  /** One more `if (f.key) params.key = f.key` extends the promise to one more key. */
  lemma KeepsFilledStep(keys: seq<string>, k: string, f: Filters, before: Params, after: Params)
    requires KeepsFilled(keys, f, before)
    requires after == if Get(f, k) != "" then before[k := Get(f, k)] else before
    ensures KeepsFilled(keys + [k], f, after)
  {
  }

  /** The promise pins the parameters down: one form, one parameter set. */
  lemma KeepsFilledUnique(keys: seq<string>, f: Filters, p: Params, q: Params)
    requires KeepsFilled(keys, f, p) && KeepsFilled(keys, f, q)
    ensures p == q
  {
    assert p.Keys == q.Keys;
  }

  /** A cleared form asks for nothing: the parameters are `{}`. */
  lemma ClearedAsksNothing(keys: seq<string>, params: Params)
    requires KeepsFilled(keys, Cleared(keys), params)
    ensures params == map[]
  {
    assert params.Keys == {};
  }

  /** `{}` is exactly what a cleared form builds, so reloading with `{}` agrees with the cleared form. */
  lemma ClearedBuildsEmpty(keys: seq<string>)
    ensures KeepsFilled(keys, Cleared(keys), map[])
  {
  }

  /** A filled field the page filters on is always sent, with the text the form holds. */
  lemma FilledFieldSent(keys: seq<string>, f: Filters, params: Params, k: string)
    requires KeepsFilled(keys, f, params)
    requires k in keys && Get(f, k) != ""
    ensures k in params && params[k] == f[k]
  {
  }

  /** `customParams || buildParams(filters)`: explicit parameters are objects, and every object is truthy,
      so they win even when they are `{}`; only their absence (`null`) falls back to the form. */
  function LoadParams(custom: Option<Params>, built: Params): (params: Params)
    ensures custom.Some? ==> params == custom.value
    ensures custom.None? ==> params == built
  {
    if custom.Some? then custom.value else built
  }

  /** The `user` object nested in a log row. */
  datatype RowUser = RowUser(fullName: Value, email: Value, groupName: Value)

  /** `row?.user?.full_name`, `row?.user?.email`, `row?.user?.group_name`: a missing nested object
      reads as `undefined`. */
  function FullNameOf(user: Option<RowUser>): Value {
    if user.Some? then user.value.fullName else Undefined
  }

  function EmailOf(user: Option<RowUser>): Value {
    if user.Some? then user.value.email else Undefined
  }

  function GroupOf(user: Option<RowUser>): Value {
    if user.Some? then user.value.groupName else Undefined
  }

  /** The user column of both journals: `full_name || email || user_id || "-"`. */
  function UserCell(user: Option<RowUser>, userId: Value): (r: Value)
    ensures Truthy(r)
    ensures r == FirstTruthy([FullNameOf(user), EmailOf(user), userId], Dash)
  {
    OrChain3(FullNameOf(user), EmailOf(user), userId, Dash);
    FirstTruthyIsTruthy([FullNameOf(user), EmailOf(user), userId], Dash);
    Or(Or(Or(FullNameOf(user), EmailOf(user)), userId), Dash)
  }

  /** A journal row without a user object still shows its `user_id`, and a row with neither shows "-". */
  lemma UserCellWithoutUser(userId: Value)
    ensures Truthy(userId) ==> UserCell(None, userId) == userId
    ensures !Truthy(userId) ==> UserCell(None, userId) == Dash
  {
  }
}
