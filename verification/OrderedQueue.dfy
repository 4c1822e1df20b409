/**
 * std::multimap seen as a sequence of entries in iteration order.  An insertion goes behind the
 * entries whose key is not larger, so equal keys keep their order of insertion.
 */
module OrderedQueue {
  datatype Item<+T> = Item(key: nat, val: T)

  ghost predicate Sorted<T>(q: seq<Item<T>>) {
    forall i, j :: 0 <= i < j < |q| ==> q[i].key <= q[j].key
  }

  /** multimap::insert of a value. */
  function Insert<T>(q: seq<Item<T>>, e: Item<T>): (r: seq<Item<T>>)
    ensures |r| == |q| + 1
  {
    if q == [] || e.key < q[0].key then [e] + q else [q[0]] + Insert(q[1..], e)
  }

  lemma {:induction false} InsertContents<T>(q: seq<Item<T>>, e: Item<T>)
    ensures multiset(Insert(q, e)) == multiset(q) + multiset{e}
    ensures forall x :: x in Insert(q, e) <==> x == e || x in q
  {
    if !(q == [] || e.key < q[0].key) {
      assert q == [q[0]] + q[1..];
      InsertContents(q[1..], e);
    }
  }

  /** An insertion keeps the order of the keys. */
  lemma {:induction false} InsertSorted<T>(q: seq<Item<T>>, e: Item<T>)
    requires Sorted(q)
    ensures Sorted(Insert(q, e))
  {
    if q != [] && q[0].key <= e.key {
      InsertSorted(q[1..], e);
      InsertContents(q[1..], e);
      var r := Insert(q[1..], e);
      forall i | 0 <= i < |r| ensures q[0].key <= r[i].key {
        assert r[i] in multiset(r);
        assert forall j :: 0 <= j < |q| - 1 ==> q[1..][j] == q[j + 1] && q[0].key <= q[j + 1].key;
      }
      assert Insert(q, e) == [q[0]] + r;
    }
  }

  /** Timers of equal deadline stay in the order in which they were inserted. */
  lemma {:induction false} InsertIsStable<T>(q: seq<Item<T>>, e: Item<T>) returns (p: nat)
    requires Sorted(q)
    ensures p <= |q| && Insert(q, e) == q[..p] + [e] + q[p..]
    ensures forall i :: 0 <= i < p ==> q[i].key <= e.key
    ensures forall i :: p <= i < |q| ==> e.key < q[i].key
  {
    if q == [] || e.key < q[0].key {
      p := 0;
    } else {
      var k := InsertIsStable(q[1..], e);
      p := k + 1;
      assert q[..p] == [q[0]] + q[1..][..k];
      assert q[p..] == q[1..][k..];
      assert forall i :: 0 < i < |q| ==> q[i] == q[1..][i - 1];
    }
  }

  /** multimap::count */
  function CountKey<T>(q: seq<Item<T>>, key: nat): nat {
    if q == [] then 0 else (if q[0].key == key then 1 else 0) + CountKey(q[1..], key)
  }

  lemma {:induction false} CountKeyPositive<T>(q: seq<Item<T>>, key: nat)
    ensures CountKey(q, key) > 0 <==> exists i :: 0 <= i < |q| && q[i].key == key
  {
    if q != [] {
      CountKeyPositive(q[1..], key);
      if i :| 0 <= i < |q| && q[i].key == key {
        assert i > 0 ==> q[1..][i - 1].key == key;
      }
    }
  }

  lemma {:induction false} CountKeyInsert<T>(q: seq<Item<T>>, e: Item<T>, key: nat)
    ensures CountKey(Insert(q, e), key) == CountKey(q, key) + if e.key == key then 1 else 0
  {
    if q == [] || e.key < q[0].key {
      assert Insert(q, e)[1..] == q;
    } else {
      assert Insert(q, e)[1..] == Insert(q[1..], e);
      CountKeyInsert(q[1..], e, key);
    }
  }
}
