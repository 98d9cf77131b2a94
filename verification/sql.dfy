/** The two pieces of SQL arithmetic the rental workflow relies on for
    identifier allocation: the `MAX` aggregate, which ignores NULLs and is
    NULL over a column with no non-NULL value, and `+ 1`, which maps NULL to
    NULL. */
module Sql {
  import opened Maybe

  /** The range of an SQLite INTEGER, a signed 64-bit value. The Python
      driver cannot bind a parameter outside it and raises instead. */
  predicate IsInteger(x: int) {
    -0x8000_0000_0000_0000 <= x < 0x8000_0000_0000_0000
  }

  /** `x + 1` in SQL: NULL stays NULL. */
  function Succ(x: Option<int>): Option<int> {
    match x
    case None => None
    case Some(v) => Some(v + 1)
  }

  /** The larger of two nullable values, a NULL losing to any value. */
  function Greater(a: Option<int>, b: Option<int>): Option<int> {
    match (a, b)
    case (None, _) => b
    case (_, None) => a
    case (Some(x), Some(y)) => if x < y then b else a
  }

  /** `MAX(column)` over the values of a column, in scan order. */
  function Max(xs: seq<Option<int>>): (m: Option<int>)
    ensures m.None? <==> forall i :: 0 <= i < |xs| ==> xs[i].None?
    ensures m.Some? ==> m in xs
    ensures forall i :: 0 <= i < |xs| && xs[i].Some? ==> m.Some? && xs[i].value <= m.value
  {
    if |xs| == 0 then None else Greater(Max(xs[..|xs| - 1]), xs[|xs| - 1])
  }

  /** After appending `MAX(column) + 1` to a column, the column's `MAX` is the
      appended value: reading `MAX` back finds the row just inserted. */
  lemma MaxAfterAppendingSucc(xs: seq<Option<int>>)
    ensures Max(xs + [Succ(Max(xs))]) == Succ(Max(xs))
  {
  }
}
