/** An absent-or-present value. It stands both for Python's `None` (a JSON
    field that is missing or null, a query argument that was not given) and
    for SQL's `NULL`. */
module Maybe {

  datatype Option<+T> = None | Some(value: T)
}
