/** The User table as the RPC layer sees it: an ordered sequence of rows, the
    single-row lookups `SELECT * FROM User WHERE <column> = $value` followed by
    `.get`, and the uniqueness of the id, email and token columns. */
module Db {
  import opened Wrappers
  import opened Models

  /** The columns with a uniqueness requirement; email and token are also queried. */
  datatype Column = Id | Email | Token

  function ValueAt(u: User, c: Column): (v: string)
  {
    match c
    case Id => u.id
    case Email => u.email
    case Token => u.token
  }

  /** Row `i` is the first row whose column `c` holds `v`. */
  ghost predicate FirstMatchAt(rows: seq<User>, c: Column, v: string, i: int)
  {
    && 0 <= i < |rows|
    && ValueAt(rows[i], c) == v
    && forall j :: 0 <= j < i ==> ValueAt(rows[j], c) != v
  }

  /** `.get` on the query: the first matching row of the sequence, or none (with a
      unique column, the only one). */
  function SelectFirst(rows: seq<User>, c: Column, v: string): (r: Option<User>)
    ensures r.None? <==> forall i :: 0 <= i < |rows| ==> ValueAt(rows[i], c) != v
    ensures r.Some? ==> exists i :: FirstMatchAt(rows, c, v, i) && rows[i] == r.value
  {
    if rows == [] then None
    else if ValueAt(rows[0], c) == v then
      assert FirstMatchAt(rows, c, v, 0);
      Some(rows[0])
    else
      SelectFirst(rows[1..], c, v)
  }

  /** No two rows share a value in column `c`. */
  ghost predicate Unique(rows: seq<User>, c: Column)
  {
    forall i, j :: 0 <= i < |rows| && 0 <= j < |rows| && i != j ==> ValueAt(rows[i], c) != ValueAt(rows[j], c)
  }

  /** Appending a row never changes an existing answer; it only answers a query
      that had no matching row before. */
  lemma {:induction false} SelectFirstAppend(rows: seq<User>, u: User, c: Column, v: string)
    ensures SelectFirst(rows + [u], c, v) ==
              if SelectFirst(rows, c, v).Some? then SelectFirst(rows, c, v)
              else if ValueAt(u, c) == v then Some(u)
              else None
  {
    if rows != [] {
      assert (rows + [u])[1..] == rows[1..] + [u];
      SelectFirstAppend(rows[1..], u, c, v);
    }
  }

  /** In a column without duplicates, looking a row up by its own value finds it. */
  lemma SelectFirstUnique(rows: seq<User>, c: Column, k: int)
    requires Unique(rows, c)
    requires 0 <= k < |rows|
    ensures SelectFirst(rows, c, ValueAt(rows[k], c)) == Some(rows[k])
  {
    var v := ValueAt(rows[k], c);
    var r := SelectFirst(rows, c, v);
    assert r.Some?;
    var i :| FirstMatchAt(rows, c, v, i) && rows[i] == r.value;
    assert ValueAt(rows[i], c) == ValueAt(rows[k], c);
  }

  /** The User table. */
  class Database {
    var rows: seq<User>

    /** The uniqueness constraints of the table's id, email and token columns. */
    ghost predicate Valid()
      reads this
    {
      Unique(rows, Id) && Unique(rows, Email) && Unique(rows, Token)
    }

    constructor ()
      ensures Valid() && rows == []
    {
      rows := [];
    }
  }
}
