/** The find-many pipeline every service shares: read a table in the
    database's row order, keep the rows the where-filter accepts, then apply
    `ApplySkip`, `ApplyTake` and `ApplyOrderBy`, in that order. Those three
    stages are defined in code the model does not contain, so they are
    parameters, constrained only by `Selecting`. */
module Query {
  import opened Wrappers
  import opened Values

  /** `order` lists every key of `table` exactly once: the order in which
      the database returns the table's rows. */
  predicate Enumerates<T>(order: seq<Id>, table: map<Id, T>) {
    && (forall i | 0 <= i < |order| :: order[i] in table)
    && (forall k | k in table :: k in order)
    && (forall i, j | 0 <= i < j < |order| :: order[i] != order[j])
  }

  /** Every row is stored under its own key. */
  predicate KeyedBy<T>(table: map<Id, T>, key: T -> Id) {
    forall k | k in table :: key(table[k]) == k
  }

  /** The rows of `table` in the order `order` gives their keys. */
  function Scan<T(==)>(table: map<Id, T>, order: seq<Id>): (rows: seq<T>)
    ensures |rows| <= |order|
    ensures forall x :: x in rows ==> x in table.Values
    ensures forall k :: k in table && k in order ==> table[k] in rows
  {
    if order == [] then []
    else (if order[0] in table then [table[order[0]]] else []) + Scan(table, order[1..])
  }

  /** LINQ's `Where`: the rows `keep` accepts, in their original order. */
  function Filter<T(!new)>(rows: seq<T>, keep: T -> bool): (kept: seq<T>)
    ensures |kept| <= |rows|
    ensures forall x :: x in kept <==> x in rows && keep(x)
  {
    if rows == [] then []
    else (if keep(rows[0]) then [rows[0]] else []) + Filter(rows[1..], keep)
  }

  /** The where-filter that matches one key, as `Where = { Id = id }` does. */
  function HasKey<T>(key: T -> Id, id: Id): T -> bool {
    x => key(x) == id
  }

  /** The filter `ids.Contains(x.Id)`. */
  function KeyIn<T>(key: T -> Id, ids: seq<Id>): T -> bool {
    x => key(x) in ids
  }

  /** Two where-filters applied one after the other. */
  function Both<T>(first: T -> bool, second: T -> bool): T -> bool {
    x => first(x) && second(x)
  }

  /** A row found among a table's values is the one stored under its own
      key. */
  predicate StoredUnderKey<T(==)>(table: map<Id, T>, key: T -> Id, x: T) {
    x in table.Values ==> key(x) in table && table[key(x)] == x
  }

  /** LINQ's `FirstOrDefault`: the first row, or null. */
  function FirstOrNone<T>(rows: seq<T>): (first: Option<T>)
    ensures first.None? <==> rows == []
    ensures first.Some? ==> first.value in rows
  {
    if rows == [] then None else Some(rows[0])
  }

  /** `ApplyOrderBy`'s sort specification, which the model never inspects. */
  datatype SortBy = SortBy(fields: seq<string>, descending: seq<bool>)

  /** A find-many request. A missing `Where` is the filter that keeps
      every row. */
  datatype FindManyArgs<!T> = FindManyArgs(
    where: T -> bool,
    skip: Option<int>,
    take: Option<int>,
    sortBy: Option<SortBy>)

  /** The arguments of a get-by-id lookup: only the key filter is set. */
  function ById<T>(key: T -> Id, id: Id): FindManyArgs<T> {
    FindManyArgs(HasKey(key, id), None, None, None)
  }

  /** `ApplySkip`, `ApplyTake` and `ApplyOrderBy`. */
  datatype Paging<!T> = Paging(
    skip: (seq<T>, Option<int>) -> seq<T>,
    take: (seq<T>, Option<int>) -> seq<T>,
    orderBy: (seq<T>, Option<SortBy>) -> seq<T>)

  ghost predicate Within<T>(xs: seq<T>, ys: seq<T>) {
    forall x :: x in xs ==> x in ys
  }

  /** What the model assumes of the paging stages: each returns only rows
      it was given and never more of them than it was given, and a null
      argument leaves the rows as they are. */
  ghost predicate Selecting<T(!new)>(p: Paging<T>) {
    && (forall rows, n :: Within(p.skip(rows, n), rows) && |p.skip(rows, n)| <= |rows|)
    && (forall rows, n :: Within(p.take(rows, n), rows) && |p.take(rows, n)| <= |rows|)
    && (forall rows, s :: Within(p.orderBy(rows, s), rows) && |p.orderBy(rows, s)| <= |rows|)
    && (forall rows :: p.skip(rows, None) == rows)
    && (forall rows :: p.take(rows, None) == rows)
    && (forall rows :: p.orderBy(rows, None) == rows)
  }

  /** A find-many request with nothing set for skip, take and sort. */
  predicate Unpaged<T>(args: FindManyArgs<T>) {
    args.skip.None? && args.take.None? && args.sortBy.None?
  }

  /** The page a find-many request returns from `rows`: only rows the
      filter accepts; all of them, in order, when nothing is paged. */
  function FindMany<T(!new)>(rows: seq<T>, args: FindManyArgs<T>, p: Paging<T>): (page: seq<T>)
    requires Selecting(p)
    ensures forall x :: x in page ==> x in rows && args.where(x)
    ensures |page| <= |Filter(rows, args.where)|
    ensures Unpaged(args) ==> page == Filter(rows, args.where)
  {
    var filtered := Filter(rows, args.where);
    var skipped := p.skip(filtered, args.skip);
    var taken := p.take(skipped, args.take);
    var sorted := p.orderBy(taken, args.sortBy);
    assert Within(skipped, filtered) && Within(taken, skipped) && Within(sorted, taken);
    sorted
  }

  /** `CountAsync` after `ApplyWhere`: how many rows the filter accepts. */
  function Count<T>(table: map<Id, T>, keep: T -> bool): nat {
    |set k | k in table && keep(table[k])|
  }

  /** A filter that accepts none of the rows keeps nothing. */
  lemma {:induction false} FilterNone<T(!new)>(rows: seq<T>, keep: T -> bool)
    requires forall i :: 0 <= i < |rows| ==> !keep(rows[i])
    ensures Filter(rows, keep) == []
  {
    if rows != [] {
      FilterNone(rows[1..], keep);
    }
  }

  /** Filtering twice keeps what one filter on both conditions keeps, in
      the same order. */
  lemma {:induction false} FilterFilter<T(!new)>(rows: seq<T>, first: T -> bool, second: T -> bool)
    ensures Filter(Filter(rows, first), second) == Filter(rows, Both(first, second))
  {
    if rows != [] {
      FilterFilter(rows[1..], first, second);
      FilterAppend(if first(rows[0]) then [rows[0]] else [], Filter(rows[1..], first), second);
    }
  }

  /** The count never exceeds the size of the table. */
  lemma CountAtMost<T>(table: map<Id, T>, keep: T -> bool)
    ensures Count(table, keep) <= |table|
  {
    var matching := set k | k in table && keep(table[k]);
    assert table.Keys == matching + (table.Keys - matching);
  }

  lemma {:induction false} FilterAppend<T(!new)>(a: seq<T>, b: seq<T>, keep: T -> bool)
    ensures Filter(a + b, keep) == Filter(a, keep) + Filter(b, keep)
  {
    if a == [] {
      assert a + b == b;
    } else {
      assert (a + b)[1..] == a[1..] + b;
      FilterAppend(a[1..], b, keep);
    }
  }

  /** Dropping a key the order never mentions does not change the scan. */
  lemma {:induction false} ScanWithout<T>(table: map<Id, T>, order: seq<Id>, k: Id)
    requires k !in order
    ensures Scan(table - {k}, order) == Scan(table, order)
  {
    if order != [] {
      ScanWithout(table, order[1..], k);
    }
  }

  /** An enumeration of a table is its first key followed by an
      enumeration of the rest of the table. */
  lemma EnumeratesTail<T>(order: seq<Id>, table: map<Id, T>)
    requires Enumerates(order, table) && order != []
    ensures Enumerates(order[1..], table - {order[0]})
    ensures order[0] !in order[1..]
  {
    var rest := order[1..];
    forall k | k in table - {order[0]}
      ensures k in rest
    {
      var i :| 0 <= i < |order| && order[i] == k;
      assert i != 0;
      assert rest[i - 1] == k;
    }
  }

  /** Taking one row out of a table lowers the count by one exactly when
      the filter accepts that row. */
  lemma CountWithout<T(!new)>(table: map<Id, T>, o: Id, keep: T -> bool)
    requires o in table
    ensures Count(table, keep) == Count(table - {o}, keep) + (if keep(table[o]) then 1 else 0)
  {
    var smaller := table - {o};
    var all := set k | k in table && keep(table[k]);
    var others := set k | k in smaller && keep(smaller[k]);
    if keep(table[o]) {
      assert all == others + {o};
    } else {
      assert all == others;
    }
  }

  /** The count a meta request reports is the length of the unpaged
      find-many result for the same filter. */
  lemma {:induction false} CountIsFilterLength<T(!new)>(table: map<Id, T>, order: seq<Id>, keep: T -> bool)
    requires Enumerates(order, table)
    ensures Count(table, keep) == |Filter(Scan(table, order), keep)|
    decreases |order|
  {
    if order == [] {
      assert table.Keys == {};
    } else {
      var o := order[0];
      var rest := order[1..];
      var smaller := table - {o};
      EnumeratesTail(order, table);
      CountIsFilterLength(smaller, rest, keep);
      CountWithout(table, o, keep);
      ScanWithout(table, rest, o);
      assert Scan(table, order) == [table[o]] + Scan(smaller, rest);
      FilterAppend([table[o]], Scan(smaller, rest), keep);
    }
  }

  /** Filtering an enumeration of a keyed table by one key finds exactly
      the row stored under that key, or nothing. */
  lemma {:induction false} FilterByKey<T(!new)>(table: map<Id, T>, order: seq<Id>, key: T -> Id, id: Id)
    requires Enumerates(order, table) && KeyedBy(table, key)
    ensures Filter(Scan(table, order), HasKey(key, id)) == if id in table then [table[id]] else []
    decreases |order|
  {
    if order != [] {
      var o := order[0];
      var rest := order[1..];
      var smaller := table - {o};
      EnumeratesTail(order, table);
      FilterByKey(smaller, rest, key, id);
      assert (id in table) == (id == o || id in smaller);
      ScanWithout(table, rest, o);
      assert Scan(table, order) == [table[o]] + Scan(smaller, rest);
      FilterAppend([table[o]], Scan(smaller, rest), HasKey(key, id));
    }
  }

  /** Unpaged, the find-many list of a keyed table holds exactly the rows
      the filter accepts, each once by key. */
  lemma FindManyKeys<T(!new)>(table: map<Id, T>, order: seq<Id>, key: T -> Id, args: FindManyArgs<T>, p: Paging<T>)
    requires Selecting(p)
    ensures Enumerates(order, table) && KeyedBy(table, key) && Unpaged(args) ==>
      forall k :: k in Ids(FindMany(Scan(table, order), args, p), key) <==> k in table && args.where(table[k])
  {
    if Enumerates(order, table) && KeyedBy(table, key) && Unpaged(args) {
      FilterScanKeys(table, order, key, args.where);
    }
  }

  /** `Where(x => x.Id == id).FirstOrDefault()` on a keyed table finds the
      row stored under `id`, or nothing. */
  lemma FirstByKey<T(!new)>(table: map<Id, T>, order: seq<Id>, key: T -> Id, id: Id)
    requires Enumerates(order, table) && KeyedBy(table, key)
    ensures FirstOrNone(Filter(Scan(table, order), HasKey(key, id))) == if id in table then Some(table[id]) else None
  {
    FilterByKey(table, order, key, id);
  }

  /** The keys of the rows an enumeration-based filter keeps are exactly
      the keys whose row the filter accepts. */
  lemma FilterScanKeys<T(!new)>(table: map<Id, T>, order: seq<Id>, key: T -> Id, keep: T -> bool)
    requires Enumerates(order, table) && KeyedBy(table, key)
    ensures forall k :: k in Ids(Filter(Scan(table, order), keep), key) <==> k in table && keep(table[k])
  {
    var rows := Filter(Scan(table, order), keep);
    var ids := Ids(rows, key);
    forall k
      ensures k in ids <==> k in table && keep(table[k])
    {
      if k in ids {
        var i :| 0 <= i < |ids| && ids[i] == k;
        assert rows[i] in rows;
        var j :| j in table && table[j] == rows[i];
      } 
      if k in table && keep(table[k]) {
        assert table[k] in rows;
        var i :| 0 <= i < |rows| && rows[i] == table[k];
        assert ids[i] == k;
      }
    }
  }
}
