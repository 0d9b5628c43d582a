/** Rows listed by id: a table written out in order, each id once. */
module Listings {
  import opened Sorting
  import opened Text

  datatype Row<T> = Row(id: string, value: T)

  function Ids<T>(rows: seq<Row<T>>): (ids: seq<string>)
    ensures |ids| == |rows| && forall i :: 0 <= i < |rows| ==> ids[i] == rows[i].id
  {
    seq(|rows|, i requires 0 <= i < |rows| => rows[i].id)
  }

  function InsertRow<T>(r: Row<T>, rows: seq<Row<T>>): seq<Row<T>> {
    if rows == [] || !Before(rows[0].id, r.id) then [r] + rows else [rows[0]] + InsertRow(r, rows[1..])
  }

  function SortRows<T>(rows: seq<Row<T>>): seq<Row<T>> {
    if rows == [] then [] else InsertRow(rows[0], SortRows(rows[1..]))
  }

  /** The ids are in ascending order, so none is listed twice, and the rows are the table's. */
  ghost predicate Lists<T>(rows: seq<Row<T>>, table: map<string, T>) {
    Ascending(Ids(rows)) && SameRows(rows, table)
  }

  ghost predicate SameRows<T>(rows: seq<Row<T>>, table: map<string, T>) {
    && (forall i :: 0 <= i < |rows| ==> rows[i].id in table && table[rows[i].id] == rows[i].value)
    && (forall id :: id in table ==> id in Ids(rows))
  }

  /** The table's rows in any order. */
  ghost predicate Collects<T>(rows: seq<Row<T>>, table: map<string, T>) {
    SameRows(rows, table) && |rows| == |table|
  }

  lemma CollectOne<T>(rows: seq<Row<T>>, table: map<string, T>, id: string, value: T)
    requires Collects(rows, table) && id !in table
    ensures Collects(rows + [Row(id, value)], table[id := value])
  {
    var rows' := rows + [Row(id, value)];
    assert Ids(rows') == Ids(rows) + [id];
  }

  lemma {:induction false} InsertRowIds<T>(r: Row<T>, rows: seq<Row<T>>)
    ensures Ids(InsertRow(r, rows)) == Insert(r.id, Ids(rows))
    decreases |rows|
  {
    hide Before;
    if rows == [] || !Before(rows[0].id, r.id) {
      assert Ids([r] + rows) == [r.id] + Ids(rows);
    } else {
      InsertRowIds(r, rows[1..]);
      assert Ids(rows)[1..] == Ids(rows[1..]);
      assert Ids([rows[0]] + InsertRow(r, rows[1..])) == [rows[0].id] + Ids(InsertRow(r, rows[1..]));
    }
  }

  lemma {:induction false} SortRowsIds<T>(rows: seq<Row<T>>)
    ensures Ids(SortRows(rows)) == Sort(Ids(rows))
    decreases |rows|
  {
    if rows != [] {
      SortRowsIds(rows[1..]);
      InsertRowIds(rows[0], SortRows(rows[1..]));
      assert Ids(rows)[1..] == Ids(rows[1..]);
    }
  }

  lemma {:induction false} InsertedFrom<T>(r: Row<T>, rows: seq<Row<T>>)
    ensures |InsertRow(r, rows)| == |rows| + 1
    ensures forall i :: 0 <= i < |rows| + 1 ==> InsertRow(r, rows)[i] == r || InsertRow(r, rows)[i] in rows
    decreases |rows|
  {
    hide Before;
    if !(rows == [] || !Before(rows[0].id, r.id)) { InsertedFrom(r, rows[1..]); }
  }

  lemma {:induction false} SortedFrom<T>(rows: seq<Row<T>>)
    ensures |SortRows(rows)| == |rows|
    ensures forall i :: 0 <= i < |rows| ==> SortRows(rows)[i] in rows
    decreases |rows|
  {
    if rows != [] {
      SortedFrom(rows[1..]);
      InsertedFrom(rows[0], SortRows(rows[1..]));
    }
  }

  /** Sorting what was collected lists the table. */
  lemma SortedLists<T>(rows: seq<Row<T>>, table: map<string, T>)
    requires Collects(rows, table)
    ensures Lists(SortRows(rows), table)
  {
    hide SortRows, Sort;
    var sorted := SortRows(rows);
    SortRowsIds(rows);
    SortSound(Ids(rows));
    SortedFrom(rows);
    forall id | id in table ensures id in Ids(sorted) {
      assert id in multiset(Ids(rows));
      assert id in multiset(Ids(sorted));
    }
    EachOnce(Ids(sorted), table.Keys);
  }

  /** Sorted names covering a set as large as their number are all different. */
  lemma EachOnce(names: seq<string>, all: set<string>)
    requires Sorted(names) && |names| == |all| && forall id :: id in all ==> id in names
    ensures Ascending(names)
  {
    hide Before;
    forall i, j | 0 <= i < j < |names| ensures Before(names[i], names[j]) {
      if names[i] == names[j] {
        var fewer := names[..j] + names[j + 1..];
        forall id | id in all ensures id in fewer {
          var k :| 0 <= k < |names| && names[k] == id;
          var k' := if k < j then k else if k == j then i else k - 1;
          assert fewer[k'] == id;
        }
        NotMore(fewer, all);
        assert false;
      }
      BeforeTotal(names[i], names[j]);
    }
  }

  lemma {:induction false} NotMore(names: seq<string>, all: set<string>)
    requires forall id :: id in all ==> id in names
    ensures |all| <= |names|
    decreases |names|
  {
    if names == [] {
      assert all == {};
    } else {
      forall id | id in all - {names[0]} ensures id in names[1..] {
        assert names == [names[0]] + names[1..];
      }
      NotMore(names[1..], all - {names[0]});
    }
  }

  /** A table is listed one way only. */
  lemma ListedOnce<T>(a: seq<Row<T>>, b: seq<Row<T>>, table: map<string, T>)
    requires Lists(a, table) && Lists(b, table)
    ensures a == b
  {
    forall id: string ensures id in Ids(a) <==> id in Ids(b) {
    }
    AscendingUnique(Ids(a), Ids(b));
    assert |a| == |Ids(a)| && |b| == |Ids(b)|;
    forall i | 0 <= i < |a| ensures a[i] == b[i] {
      assert Ids(a)[i] == Ids(b)[i];
    }
  }

  /* ---- collecting the rows of a table, key by key ---- */

  function Restrict<T>(table: map<string, T>, ids: set<string>): map<string, T> {
    map id | id in table && id in ids :: table[id]
  }

  lemma CollectNothing<T>(table: map<string, T>, shown: set<string>)
    requires shown <= table.Keys
    ensures Restrict(table, shown - table.Keys) == map[]
    ensures Restrict(table, shown - {}) == Restrict(table, shown)
    ensures Collects([], Restrict(table, shown - table.Keys))
  {
    var none: map<string, T> := map[];
    assert Collects([], none);
    assert shown - {} == shown;
  }

  lemma StartEmpty<T>(table: map<string, T>)
    ensures var none: map<string, T> := map[]; Collects([], none) && none + table == table
  {
  }

  lemma NothingAdded<T>(table: map<string, T>)
    ensures table + map[] == table
  {
  }

  lemma RestrictMore<T>(before: map<string, T>, table: map<string, T>, shown: set<string>, keys: set<string>,
                        id: string)
    requires id in keys && id in table && id in shown && before.Keys !! shown
    ensures before + Restrict(table, shown - (keys - {id})) == (before + Restrict(table, shown - keys))[id := table[id]]
  {
  }

  lemma RestrictSame<T>(table: map<string, T>, shown: set<string>, keys: set<string>, id: string)
    requires id !in shown
    ensures Restrict(table, shown - (keys - {id})) == Restrict(table, shown - keys)
  {
    assert shown - (keys - {id}) == shown - keys;
  }

  /** One more key looked at: its row is added exactly if it is to be shown. */
  lemma CollectStep<T>(rows: seq<Row<T>>, before: map<string, T>, table: map<string, T>, shown: set<string>,
                       keys: set<string>, id: string)
    requires Collects(rows, before + Restrict(table, shown - keys))
    requires id in keys && id in table && before.Keys !! shown
    ensures var next := before + Restrict(table, shown - (keys - {id}));
            Collects(if id in shown then rows + [Row(id, table[id])] else rows, next)
  {
    if id in shown {
      RestrictMore(before, table, shown, keys, id);
      assert id !in before + Restrict(table, shown - keys);
      hide Collects, Restrict;
      CollectOne(rows, before + Restrict(table, shown - keys), id, table[id]);
    } else {
      RestrictSame(table, shown, keys, id);
    }
  }
}
