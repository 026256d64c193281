/**
 * The part of the database query builder the paginator relies on: a query
 * reads rows from a source, keeps those satisfying every condition, and
 * returns at most `limit` of them. Rows have a uuid and integer columns; a
 * missing column reads as SQL NULL, and a comparison with NULL is false.
 *
 * The row source `table` stands for the rows in the order the query's
 * order-by clauses produce; the builder never reorders it.
 */
module QueryBuilder {
  import opened Wrappers

  datatype Direction = Asc | Desc
  datatype Order = Order(column: string, direction: Direction)
  datatype Row = Row(uuid: string, columns: map<string, int>)

  /** The comparison operators of the conditions the paginator adds (>= and <=). */
  datatype Operator = AtLeast | AtMost

  /**
   * A condition of a WHERE or HAVING clause: `column = uuid` on the uuid
   * column, or `column op value` on an integer column (value None is NULL).
   */
  datatype Predicate =
    | UuidEquals(column: string, uuid: string)
    | Compare(column: string, op: Operator, value: Option<int>)

  datatype Query = Query(from: string, orders: seq<Order>, table: seq<Row>, wheres: seq<Predicate>, limit: Option<nat>)

  /** A column of a row, None (NULL) when the row has no such column. */
  function Column(r: Row, column: string): (v: Option<int>)
    ensures v.Some? <==> column in r.columns
    ensures v.Some? ==> v.value == r.columns[column]
  {
    if column in r.columns then Some(r.columns[column]) else None
  }

  predicate Satisfies(r: Row, p: Predicate) {
    match p
    case UuidEquals(_, uuid) => r.uuid == uuid
    case Compare(column, op, value) =>
      && Column(r, column).Some? && value.Some?
      && (if op == AtLeast then Column(r, column).value >= value.value else Column(r, column).value <= value.value)
  }

  predicate SatisfiesAll(r: Row, ps: seq<Predicate>) {
    forall i :: 0 <= i < |ps| ==> Satisfies(r, ps[i])
  }

  /** The rows satisfying every condition, in their original order. */
  function Select(rows: seq<Row>, ps: seq<Predicate>): (r: seq<Row>)
    ensures |r| <= |rows|
  {
    if rows == [] then []
    else (if SatisfiesAll(rows[0], ps) then [rows[0]] else []) + Select(rows[1..], ps)
  }

  /** A row is selected exactly when it is one of the rows and satisfies every condition. */
  lemma {:induction false} SelectMembers(rows: seq<Row>, ps: seq<Predicate>, x: Row)
    ensures x in Select(rows, ps) <==> x in rows && SatisfiesAll(x, ps)
  {
    if rows != [] {
      SelectMembers(rows[1..], ps, x);
      assert rows == [rows[0]] + rows[1..];
    }
  }

  /** Adding conditions narrows the result step by step: the conditions can be applied one batch after another. */
  lemma {:induction false} SelectConcat(rows: seq<Row>, ps: seq<Predicate>, qs: seq<Predicate>)
    ensures Select(rows, ps + qs) == Select(Select(rows, ps), qs)
  {
    if rows != [] {
      assert SatisfiesAll(rows[0], ps + qs) <==> SatisfiesAll(rows[0], ps) && SatisfiesAll(rows[0], qs) by {
        if SatisfiesAll(rows[0], ps) && SatisfiesAll(rows[0], qs) {
          forall i | 0 <= i < |ps + qs| ensures Satisfies(rows[0], (ps + qs)[i]) {
            if i >= |ps| {
              assert (ps + qs)[i] == qs[i - |ps|];
            }
          }
        }
        if SatisfiesAll(rows[0], ps + qs) {
          forall i | 0 <= i < |qs| ensures Satisfies(rows[0], qs[i]) {
            assert (ps + qs)[|ps| + i] == qs[i];
          }
          forall i | 0 <= i < |ps| ensures Satisfies(rows[0], ps[i]) {
            assert (ps + qs)[i] == ps[i];
          }
        }
      }
      SelectConcat(rows[1..], ps, qs);
      var s := Select(rows, ps);
      if SatisfiesAll(rows[0], ps) {
        assert s == [rows[0]] + Select(rows[1..], ps);
        assert s[0] == rows[0] && s[1..] == Select(rows[1..], ps);
        assert Select(s, qs) == (if SatisfiesAll(rows[0], qs) then [rows[0]] else []) + Select(s[1..], qs);
      } else {
        assert s == Select(rows[1..], ps);
      }
    }
  }

  /** LIMIT: at most n rows from the front; no limit keeps them all. */
  function Take(rows: seq<Row>, limit: Option<nat>): (r: seq<Row>)
    ensures limit.None? ==> r == rows
    ensures limit.Some? ==> |r| == (if limit.value < |rows| then limit.value else |rows|)
    ensures r == rows[..|r|]
  {
    if limit.Some? && limit.value < |rows| then rows[..limit.value] else rows
  }

  /** get(): the selected rows, cut to the limit. */
  function Rows(q: Query): (r: seq<Row>)
    ensures |r| <= |Select(q.table, q.wheres)| <= |q.table|
    ensures r == Select(q.table, q.wheres)[..|r|]
  {
    Take(Select(q.table, q.wheres), q.limit)
  }

  /** limit(n): a negative n leaves the query as it was. */
  function WithLimit(q: Query, n: int): (r: Query)
    ensures n >= 0 ==> r == q.(limit := Some(n))
    ensures n < 0 ==> r == q
  {
    if n >= 0 then q.(limit := Some(n)) else q
  }

  /** first(): the first selected row, if any (the query is cut to one row). */
  function FirstOf(q: Query): (r: Option<Row>)
    ensures r.Some? <==> Select(q.table, q.wheres) != []
    ensures r.Some? ==> r.value == Select(q.table, q.wheres)[0]
  {
    var rows := Rows(WithLimit(q, 1));
    if |rows| > 0 then Some(rows[0]) else None
  }

  /** The builder object: its clauses change in place as conditions and limits are added. */
  class Builder {
    var from: string
    var orders: seq<Order>
    var table: seq<Row>
    var wheres: seq<Predicate>
    var limit: Option<nat>

    function State(): Query
      reads this
    {
      Query(from, orders, table, wheres, limit)
    }

    constructor(q: Query)
      ensures State() == q
    {
      from, orders, table, wheres, limit := q.from, q.orders, q.table, q.wheres, q.limit;
    }

    /** where(column, '=', uuid) and friends: one more condition. */
    method Where(p: Predicate)
      modifies this
      ensures State() == old(State()).(wheres := old(wheres) + [p])
    {
      wheres := wheres + [p];
    }

    /** having(): without grouping it filters rows like a WHERE condition. */
    method Having(p: Predicate)
      modifies this
      ensures State() == old(State()).(wheres := old(wheres) + [p])
    {
      wheres := wheres + [p];
    }

    method Limit(n: int)
      modifies this
      ensures State() == WithLimit(old(State()), n)
    {
      if n >= 0 {
        limit := Some(n);
      }
    }

    method Get() returns (rows: seq<Row>)
      ensures rows == Rows(State())
    {
      rows := Take(Select(table, wheres), limit);
    }

    /** clone: a fresh builder with the same clauses. */
    method Clone() returns (b: Builder)
      ensures fresh(b) && b.State() == State()
    {
      b := new Builder(State());
    }

    /** first(): take(1)->get()->first(), so the builder keeps the limit 1. */
    method First() returns (r: Option<Row>)
      modifies this
      ensures r == FirstOf(old(State()))
      ensures State() == WithLimit(old(State()), 1)
    {
      Limit(1);
      var rows := Get();
      r := if |rows| > 0 then Some(rows[0]) else None;
    }
  }
}
