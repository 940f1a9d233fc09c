/** Rows of the hosted tables the pages read, and JavaScript truthiness of their fields. */
module Tables {

  import opened Wrappers
  import Seqs

  /** A row of the 'Arduino devices' table; every column may be NULL. */
  datatype DeviceRow = DeviceRow(deviceId: Option<string>, deviceName: Option<string>, location: Option<string>)

  /** What one query yields: the rows, or the error it raised. A response whose data is not an array reads as no rows. */
  datatype Response<T> = Failed(message: string) | Fetched(rows: seq<T>)

  /** A possibly-missing string is truthy when it is present and non-empty. */
  predicate Truthy(s: Option<string>)
  {
    s.Some? && s.value != ""
  }

  /** `s || fallback`. */
  function OrElse(s: Option<string>, fallback: string): string
  {
    if Truthy(s) then s.value else fallback
  }

  /** `rows.map(key).filter(Boolean)`: the truthy keys of `rows`, in order, repeats included. */
  function TruthyKeys<T(!new)>(rows: seq<T>, key: T -> Option<string>): (keys: seq<string>)
    ensures forall id :: id in keys <==> id != "" && exists r :: r in rows && key(r) == Some(id)
  {
    if rows == [] then []
    else
      assert forall r :: r in rows <==> r == rows[0] || r in rows[1..];
      (if Truthy(key(rows[0])) then [key(rows[0]).value] else []) + TruthyKeys(rows[1..], key)
  }

  /** `.in(column, ids)`: the rows whose key is one of `ids`. */
  function SelectIn<T(==,!new)>(rows: seq<T>, key: T -> Option<string>, ids: seq<string>): (selected: seq<T>)
    ensures Seqs.IsSubsequence(selected, rows)
    ensures forall x :: multiset(selected)[x] ==
              if key(x).Some? && key(x).value in ids then multiset(rows)[x] else 0
    ensures forall r :: r in selected <==> r in rows && key(r).Some? && key(r).value in ids
  {
    Seqs.Filter(rows, (r: T) => key(r).Some? && key(r).value in ids)
  }

}
