/** The sum of the numbers in a table. */
module Totals {

  ghost function Total<K>(table: map<K, nat>): nat
    decreases |table|
  {
    if table == map[] then 0
    else
      var key :| key in table;
      table[key] + Total(table - {key})
  }

  /** Any entry may be taken out first. */
  lemma {:induction false} TotalAny<K>(table: map<K, nat>, key: K)
    requires key in table
    ensures Total(table) == table[key] + Total(table - {key})
    decreases |table|
  {
    var first :| first in table && Total(table) == table[first] + Total(table - {first});
    if first != key {
      TotalAny(table - {first}, key);
      TotalAny(table - {key}, first);
      assert table - {first} - {key} == table - {key} - {first};
    }
  }

  lemma TotalUpdate<K>(table: map<K, nat>, key: K, n: nat)
    ensures Total(table[key := n]) + (if key in table then table[key] else 0) == Total(table) + n
  {
    hide Total;
    TotalAny(table[key := n], key);
    if key in table {
      TotalAny(table, key);
      assert table[key := n] - {key} == table - {key};
    } else {
      assert table[key := n] - {key} == table;
    }
  }
}
