/**
 * Counting orders and adding up their amounts by a key: the one-pass table of a map filled in insertion
 * order, the many-pass table it stands for, and the ranking of its rows.
 */
module Tallies {
  import opened Wrappers

  /** One order as the sales report reads it.  Amounts are in paise, days are local day numbers. */
  datatype Sale = Sale(status: string, amount: int, productId: Option<int>, productName: string, day: int)

  datatype Tally = Tally(orders: nat, amount: int)

  const NOTHING := Tally(0, 0)

  function Plus(s: Tally, t: Tally): Tally { Tally(s.orders + t.orders, s.amount + t.amount) }

  function OneMore(t: Tally, amount: int): Tally { Plus(t, Tally(1, amount)) }

  /** A pass over the orders for one key. */
  function Tallied<K(==)>(sales: seq<Sale>, keyOf: Sale -> Option<K>, key: K): Tally {
    if sales == [] then NOTHING
    else
      var n := |sales| - 1;
      var before := Tallied(sales[..n], keyOf, key);
      if keyOf(sales[n]) == Some(key) then OneMore(before, sales[n].amount) else before
  }

  /** A pass over the orders that have any key. */
  function Overall<K>(sales: seq<Sale>, keyOf: Sale -> Option<K>): Tally {
    if sales == [] then NOTHING
    else
      var n := |sales| - 1;
      var before := Overall(sales[..n], keyOf);
      if keyOf(sales[n]).Some? then OneMore(before, sales[n].amount) else before
  }

  function Sum(ts: seq<Tally>): Tally {
    if ts == [] then NOTHING else Plus(Sum(ts[..|ts| - 1]), ts[|ts| - 1])
  }

  predicate Distinct<K(==)>(keys: seq<K>) { forall i, j | 0 <= i < j < |keys| :: keys[i] != keys[j] }

  function TalliesOf<K(==)>(sales: seq<Sale>, keyOf: Sale -> Option<K>, keys: seq<K>): (ts: seq<Tally>)
    ensures |ts| == |keys|
  {
    seq(|keys|, i requires 0 <= i < |keys| => Tallied(sales, keyOf, keys[i]))
  }

  lemma {:induction false} SumUpdate(s: seq<Tally>, i: nat, amount: int)
    requires i < |s|
    ensures Sum(s[i := OneMore(s[i], amount)]) == OneMore(Sum(s), amount)
  {
    var n := |s| - 1;
    var t := s[i := OneMore(s[i], amount)];
    if i == n {
      assert t[..n] == s[..n];
    } else {
      assert t[..n] == s[..n][i := OneMore(s[i], amount)];
      SumUpdate(s[..n], i, amount);
    }
  }

  lemma {:induction false} SumOfNothing(s: seq<Tally>)
    requires forall i | 0 <= i < |s| :: s[i] == NOTHING
    ensures Sum(s) == NOTHING
  {
    if s != [] {
      SumOfNothing(s[..|s| - 1]);
      assert s[|s| - 1] == NOTHING;
    }
  }

  ghost predicate Covered<K(!new)>(sales: seq<Sale>, keyOf: Sale -> Option<K>, keys: seq<K>) {
    forall sale | sale in sales && keyOf(sale).Some? :: keyOf(sale).value in keys
  }

  /** The groups of distinct keys add up to the whole when every key is among them, and fall short by at
      least one order when one is not. */
  lemma {:induction false} GroupsAddUp<K(!new)>(sales: seq<Sale>, keyOf: Sale -> Option<K>, keys: seq<K>)
    requires Distinct(keys)
    ensures Sum(TalliesOf(sales, keyOf, keys)).orders <= Overall(sales, keyOf).orders
    ensures Sum(TalliesOf(sales, keyOf, keys)).orders == Overall(sales, keyOf).orders <==> Covered(sales, keyOf, keys)
    ensures Covered(sales, keyOf, keys) ==> Sum(TalliesOf(sales, keyOf, keys)) == Overall(sales, keyOf)
    decreases sales
  {
    var ts := TalliesOf(sales, keyOf, keys);
    if sales == [] {
      SumOfNothing(ts);
    } else {
      var n := |sales| - 1;
      var sale, before := sales[n], TalliesOf(sales[..n], keyOf, keys);
      GroupsAddUp(sales[..n], keyOf, keys);
      CoveredStep(sales, keyOf, keys);
      if keyOf(sale).Some? && keyOf(sale).value in keys {
        var i :| 0 <= i < |keys| && keys[i] == keyOf(sale).value;
        assert ts == before[i := OneMore(before[i], sale.amount)];
        SumUpdate(before, i, sale.amount);
      } else {
        assert ts == before;
      }
    }
  }

  lemma CoveredStep<K(!new)>(sales: seq<Sale>, keyOf: Sale -> Option<K>, keys: seq<K>)
    requires sales != []
    ensures Covered(sales, keyOf, keys) <==>
      Covered(sales[..|sales| - 1], keyOf, keys)
      && (keyOf(sales[|sales| - 1]).Some? ==> keyOf(sales[|sales| - 1]).value in keys)
  {
    var n := |sales| - 1;
    assert sales == sales[..n] + [sales[n]];
  }

  // ----- tables -----

  /** One group of orders. */
  datatype Row<K> = Row(key: K, tally: Tally)

  /** An entry of a `Map`: `name` is the string the row is filed under. */
  datatype Entry<K> = Entry(name: string, row: Row<K>)

  /** The keys that occur, in the order they first occur. */
  function KeysSeen<K(==)>(sales: seq<Sale>, keyOf: Sale -> Option<K>): seq<K> {
    if sales == [] then []
    else
      var n := |sales| - 1;
      var before, key := KeysSeen(sales[..n], keyOf), keyOf(sales[n]);
      if key.Some? && key.value !in before then before + [key.value] else before
  }

  /** A pass over the orders for every key that occurs. */
  function Groups<K(==)>(sales: seq<Sale>, keyOf: Sale -> Option<K>): (r: seq<Row<K>>)
    ensures |r| == |KeysSeen(sales, keyOf)|
  {
    var keys := KeysSeen(sales, keyOf);
    seq(|keys|, i requires 0 <= i < |keys| => Row(keys[i], Tallied(sales, keyOf, keys[i])))
  }

  /** The `Map` that holds those rows, each under its name. */
  function Filed<K>(rows: seq<Row<K>>, nameOf: K -> string): (r: seq<Entry<K>>)
    ensures |r| == |rows|
  {
    seq(|rows|, i requires 0 <= i < |rows| => Entry(nameOf(rows[i].key), rows[i]))
  }

  /** The rows of a `Map`, in insertion order. */
  function Rows<K>(table: seq<Entry<K>>): (r: seq<Row<K>>)
    ensures |r| == |table|
  {
    seq(|table|, i requires 0 <= i < |table| => table[i].row)
  }

  lemma RowsAreFiled<K>(rows: seq<Row<K>>, nameOf: K -> string)
    ensures Rows(Filed(rows, nameOf)) == rows
  {
  }

  /** Where `name` is filed, or the end. */
  function Find<K>(table: seq<Entry<K>>, name: string): (i: nat)
    ensures i <= |table| && forall j | 0 <= j < i :: table[j].name != name
    ensures i < |table| ==> table[i].name == name
  {
    if table == [] || table[0].name == name then 0 else Find(table[1..], name) + 1
  }

  /** `map.get(name) || fresh`, one order more, `map.set(name, …)`. */
  function Bump<K>(table: seq<Entry<K>>, name: string, key: K, amount: int): seq<Entry<K>> {
    var i := Find(table, name);
    if i < |table| then
      table[i := Entry(name, Row(table[i].row.key, OneMore(table[i].row.tally, amount)))]
    else
      table + [Entry(name, Row(key, OneMore(NOTHING, amount)))]
  }

  lemma {:induction false} KeysSeenAre<K(!new)>(sales: seq<Sale>, keyOf: Sale -> Option<K>)
    ensures Distinct(KeysSeen(sales, keyOf))
    ensures Covered(sales, keyOf, KeysSeen(sales, keyOf))
    ensures forall k :: k in KeysSeen(sales, keyOf) <==> Tallied(sales, keyOf, k).orders > 0
    decreases sales
  {
    if sales != [] {
      KeysSeenAre(sales[..|sales| - 1], keyOf);
      CoveredStep(sales, keyOf, KeysSeen(sales, keyOf));
    }
  }

  lemma {:induction false} UnseenHasNothing<K(!new)>(sales: seq<Sale>, keyOf: Sale -> Option<K>, key: K)
    requires Tallied(sales, keyOf, key).orders == 0
    ensures Tallied(sales, keyOf, key) == NOTHING
    decreases sales
  {
    if sales != [] { UnseenHasNothing(sales[..|sales| - 1], keyOf, key); }
  }

  /** Each key that occurs has one row, with the tally of a pass of its own; no other key has one. */
  lemma GroupsAreExact<K(!new)>(sales: seq<Sale>, keyOf: Sale -> Option<K>, row: Row<K>)
    ensures row in Groups(sales, keyOf) <==> row.tally == Tallied(sales, keyOf, row.key) && row.tally.orders > 0
    ensures multiset(Groups(sales, keyOf))[row] <= 1
  {
    KeysSeenAre(sales, keyOf);
    var keys, rows := KeysSeen(sales, keyOf), Groups(sales, keyOf);
    if row.key in keys {
      var i :| 0 <= i < |keys| && keys[i] == row.key;
      assert rows[i].key == row.key;
    }
    OccursOnce(rows, row);
  }

  lemma {:induction false} OccursOnce<K(!new)>(rows: seq<Row<K>>, row: Row<K>)
    requires forall i, j | 0 <= i < j < |rows| :: rows[i].key != rows[j].key
    ensures multiset(rows)[row] <= 1
    decreases rows
  {
    if rows != [] {
      var n := |rows| - 1;
      OccursOnce(rows[..n], row);
      assert rows == rows[..n] + [rows[n]];
      if rows[n] == row { assert row !in rows[..n]; }
    }
  }

  ghost predicate Injective<K(!new)>(nameOf: K -> string) {
    forall a, b | nameOf(a) == nameOf(b) :: a == b
  }

  /** One more order bumps the map, provided names tell keys apart. */
  lemma TableStep<K(!new)>(sales: seq<Sale>, sale: Sale, keyOf: Sale -> Option<K>, nameOf: K -> string)
    requires Injective(nameOf)
    ensures Filed(Groups(sales + [sale], keyOf), nameOf) ==
      if keyOf(sale).Some? then
        Bump(Filed(Groups(sales, keyOf), nameOf), nameOf(keyOf(sale).value), keyOf(sale).value, sale.amount)
      else
        Filed(Groups(sales, keyOf), nameOf)
  {
    assert (sales + [sale])[..|sales|] == sales;
    if keyOf(sale).Some? {
      var key := keyOf(sale).value;
      FindsKey(sales, keyOf, nameOf, key);
      if key in KeysSeen(sales, keyOf) { SeenKeyGroups(sales, sale, keyOf); } else { NewKeyGroups(sales, sale, keyOf); }
    } else {
      assert Groups(sales + [sale], keyOf) == Groups(sales, keyOf);
    }
  }

  lemma SeenKeyGroups<K(!new)>(sales: seq<Sale>, sale: Sale, keyOf: Sale -> Option<K>)
    requires keyOf(sale).Some? && keyOf(sale).value in KeysSeen(sales, keyOf)
    ensures
      var before, keys := Groups(sales, keyOf), KeysSeen(sales, keyOf);
      forall i | 0 <= i < |keys| && keys[i] == keyOf(sale).value ::
        Groups(sales + [sale], keyOf) == before[i := Row(keys[i], OneMore(before[i].tally, sale.amount))]
  {
    assert (sales + [sale])[..|sales|] == sales;
    KeysSeenAre(sales, keyOf);
  }

  lemma NewKeyGroups<K(!new)>(sales: seq<Sale>, sale: Sale, keyOf: Sale -> Option<K>)
    requires keyOf(sale).Some? && keyOf(sale).value !in KeysSeen(sales, keyOf)
    ensures Groups(sales + [sale], keyOf)
         == Groups(sales, keyOf) + [Row(keyOf(sale).value, OneMore(NOTHING, sale.amount))]
  {
    assert (sales + [sale])[..|sales|] == sales;
    KeysSeenAre(sales, keyOf);
    UnseenHasNothing(sales, keyOf, keyOf(sale).value);
  }

  lemma FindsKey<K(!new)>(sales: seq<Sale>, keyOf: Sale -> Option<K>, nameOf: K -> string, key: K)
    requires Injective(nameOf)
    ensures
      var keys, i := KeysSeen(sales, keyOf), Find(Filed(Groups(sales, keyOf), nameOf), nameOf(key));
      if key in keys then i < |keys| && keys[i] == key else i == |keys|
  {
    var keys, table := KeysSeen(sales, keyOf), Filed(Groups(sales, keyOf), nameOf);
    if key in keys {
      var j :| 0 <= j < |keys| && keys[j] == key;
      assert table[j].name == nameOf(key);
    }
  }

  // ----- ranking -----

  /** By amount, then by number of orders, both falling. */
  predicate NoWorse(a: Tally, b: Tally) {
    a.amount > b.amount || (a.amount == b.amount && a.orders >= b.orders)
  }

  function Insert<K>(sorted: seq<Row<K>>, x: Row<K>): (r: seq<Row<K>>)
    ensures |r| == |sorted| + 1
  {
    if sorted == [] then [x]
    else
      var n := |sorted| - 1;
      if NoWorse(sorted[n].tally, x.tally) then sorted + [x] else Insert(sorted[..n], x) + [sorted[n]]
  }

  /** `Array.prototype.sort` with the report's comparator: the stable one. */
  function Ranked<K>(rows: seq<Row<K>>): (r: seq<Row<K>>)
    ensures |r| == |rows|
  {
    if rows == [] then [] else Insert(Ranked(rows[..|rows| - 1]), rows[|rows| - 1])
  }

  ghost predicate InOrder<K>(rows: seq<Row<K>>) {
    forall i, j | 0 <= i < j < |rows| :: NoWorse(rows[i].tally, rows[j].tally)
  }

  /** The rows with one tally, in the order they stand. */
  function Alike<K>(rows: seq<Row<K>>, t: Tally): seq<Row<K>> {
    if rows == [] then []
    else
      var n := |rows| - 1;
      Alike(rows[..n], t) + if rows[n].tally == t then [rows[n]] else []
  }

  lemma {:induction false} InsertIsInOrder<K>(sorted: seq<Row<K>>, x: Row<K>)
    requires InOrder(sorted)
    ensures InOrder(Insert(sorted, x))
    ensures multiset(Insert(sorted, x)) == multiset(sorted) + multiset{x}
    decreases sorted
  {
    if sorted != [] {
      var n := |sorted| - 1;
      assert sorted == sorted[..n] + [sorted[n]];
      if !NoWorse(sorted[n].tally, x.tally) {
        InsertIsInOrder(sorted[..n], x);
        var r := Insert(sorted[..n], x);
        forall i | 0 <= i < |r| ensures NoWorse(r[i].tally, sorted[n].tally) {
          assert r[i] in multiset(sorted[..n]) + multiset{x};
        }
      }
    }
  }

  lemma {:induction false} InsertKeepsAlike<K>(sorted: seq<Row<K>>, x: Row<K>, t: Tally)
    requires InOrder(sorted)
    ensures Alike(Insert(sorted, x), t) == Alike(sorted, t) + if x.tally == t then [x] else []
    decreases sorted
  {
    if sorted != [] {
      var n := |sorted| - 1;
      if NoWorse(sorted[n].tally, x.tally) {
        assert (sorted + [x])[..n + 1] == sorted;
      } else {
        var r := Insert(sorted[..n], x);
        assert (r + [sorted[n]])[..n + 1] == r;
        InsertKeepsAlike(sorted[..n], x, t);
      }
    }
  }

  lemma LastApart<K>(rows: seq<Row<K>>)
    requires rows != []
    ensures multiset(rows) == multiset(rows[..|rows| - 1]) + multiset{rows[|rows| - 1]}
  {
    assert rows == rows[..|rows| - 1] + [rows[|rows| - 1]];
  }

  /** Ranking sorts, keeps every row once, and keeps the order of rows that tie. */
  lemma {:induction false} RankedIsStableSort<K(!new)>(rows: seq<Row<K>>)
    ensures InOrder(Ranked(rows))
    ensures multiset(Ranked(rows)) == multiset(rows)
    ensures forall t :: Alike(Ranked(rows), t) == Alike(rows, t)
    decreases rows
  {
    if rows != [] {
      var n := |rows| - 1;
      RankedIsStableSort(rows[..n]);
      InsertIsInOrder(Ranked(rows[..n]), rows[n]);
      LastApart(rows);
      forall t ensures Alike(Ranked(rows), t) == Alike(rows, t) {
        InsertKeepsAlike(Ranked(rows[..n]), rows[n], t);
      }
    }
  }

  lemma {:induction false} AlikeIsEmptyIff<K>(rows: seq<Row<K>>, t: Tally)
    ensures Alike(rows, t) == [] <==> forall i | 0 <= i < |rows| :: rows[i].tally != t
    decreases rows
  {
    if rows != [] { AlikeIsEmptyIff(rows[..|rows| - 1], t); }
  }

  lemma AlikeLast<K>(rows: seq<Row<K>>, t: Tally)
    requires rows != []
    ensures
      var n, all := |rows| - 1, Alike(rows, t);
      if rows[n].tally == t then all != [] && all[|all| - 1] == rows[n] && Alike(rows[..n], t) == all[..|all| - 1]
      else Alike(rows[..n], t) == all
  {
  }

  /** Only one arrangement is in order and keeps the order of ties, so any stable sort gives it. */
  lemma {:induction false} StableSortIsUnique<K>(a: seq<Row<K>>, b: seq<Row<K>>)
    requires InOrder(a) && InOrder(b) && forall t :: Alike(a, t) == Alike(b, t)
    ensures a == b
    decreases a
  {
    if a == [] || b == [] {
      if a != [] {
        AlikeIsEmptyIff(a, a[0].tally);
        AlikeIsEmptyIff(b, a[0].tally);
      }
      if b != [] {
        AlikeIsEmptyIff(b, b[0].tally);
        AlikeIsEmptyIff(a, b[0].tally);
      }
    } else {
      var m, n := |a| - 1, |b| - 1;
      LastIsWorst(a, b);
      LastIsWorst(b, a);
      var t := a[m].tally;
      assert b[n].tally == t;
      AlikeLast(a, t);
      AlikeLast(b, t);
      forall s ensures Alike(a[..m], s) == Alike(b[..n], s) {
        assert Alike(a, s) == Alike(b, s);
        AlikeLast(a, s);
        AlikeLast(b, s);
      }
      StableSortIsUnique(a[..m], b[..n]);
      assert a == a[..m] + [a[m]] && b == b[..n] + [b[n]];
    }
  }

  lemma LastIsWorst<K>(a: seq<Row<K>>, b: seq<Row<K>>)
    requires a != [] && b != [] && InOrder(b) && forall t :: Alike(a, t) == Alike(b, t)
    ensures NoWorse(a[|a| - 1].tally, b[|b| - 1].tally)
  {
    var t := a[|a| - 1].tally;
    AlikeIsEmptyIff(a, t);
    AlikeIsEmptyIff(b, t);
    assert Alike(b, t) != [];
    var i :| 0 <= i < |b| && b[i].tally == t;
  }

  function RowTallies<K>(rows: seq<Row<K>>): (ts: seq<Tally>)
    ensures |ts| == |rows|
  {
    seq(|rows|, i requires 0 <= i < |rows| => rows[i].tally)
  }

  lemma {:induction false} InsertAddsUp<K>(sorted: seq<Row<K>>, x: Row<K>)
    ensures Sum(RowTallies(Insert(sorted, x))) == Plus(Sum(RowTallies(sorted)), x.tally)
    decreases sorted
  {
    var n, r := |sorted|, Insert(sorted, x);
    assert RowTallies(r)[..n] == RowTallies(r[..n]);
    if n > 0 {
      assert RowTallies(sorted)[..n - 1] == RowTallies(sorted[..n - 1]);
      if NoWorse(sorted[n - 1].tally, x.tally) {
        assert r[..n] == sorted;
      } else {
        assert r[..n] == Insert(sorted[..n - 1], x);
        InsertAddsUp(sorted[..n - 1], x);
      }
    }
  }

  lemma {:induction false} RankingKeepsSum<K>(rows: seq<Row<K>>)
    ensures Sum(RowTallies(Ranked(rows))) == Sum(RowTallies(rows))
    decreases rows
  {
    if rows != [] {
      var n := |rows| - 1;
      RankingKeepsSum(rows[..n]);
      InsertAddsUp(Ranked(rows[..n]), rows[n]);
      assert RowTallies(rows)[..n] == RowTallies(rows[..n]);
    }
  }

  /** The first `n` of a ranking are those rows, and nothing left out beats one of them. */
  lemma TopAreTop<K(!new)>(rows: seq<Row<K>>, top: seq<Row<K>>, rest: seq<Row<K>>)
    requires top + rest == Ranked(rows)
    ensures multiset(top) + multiset(rest) == multiset(rows)
    ensures forall a, b | a in top && b in rest :: NoWorse(a.tally, b.tally)
  {
    RankedIsStableSort(rows);
    SplitInOrder(top, rest);
    assert multiset(top + rest) == multiset(top) + multiset(rest);
  }

  lemma SplitInOrder<K(!new)>(top: seq<Row<K>>, rest: seq<Row<K>>)
    requires InOrder(top + rest)
    ensures forall a, b | a in top && b in rest :: NoWorse(a.tally, b.tally)
  {
    var all := top + rest;
    forall a, b | a in top && b in rest ensures NoWorse(a.tally, b.tally) {
      var i :| 0 <= i < |top| && top[i] == a;
      var j :| 0 <= j < |rest| && rest[j] == b;
      assert all[i] == a && all[|top| + j] == b;
    }
  }
}
