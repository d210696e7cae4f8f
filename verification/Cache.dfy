// The metadata cache: a count-capped FIFO map kept as a hash map and a queue
// of its keys (cache.rs).
module MetaCaching {
  import opened Base

  // ---- what it is: entries in insertion order, at most `cap` of them ----

  function Keys<K, V>(es: seq<(K, V)>): seq<K> {
    seq(|es|, i requires 0 <= i < |es| => es[i].0)
  }

  ghost predicate Distinct<K>(s: seq<K>) { forall i, j | 0 <= i < j < |s| :: s[i] != s[j] }

  function Find<K(==), V>(es: seq<(K, V)>, k: K): Option<V> {
    if es == [] then None else if es[0].0 == k then Some(es[0].1) else Find(es[1..], k)
  }

  // An update keeps its place; a new key goes to the back, and the front
  // leaves if there are then too many.
  function Put<K(==), V>(es: seq<(K, V)>, cap: nat, k: K, v: V): seq<(K, V)> {
    if k in Keys(es) then Update(es, k, v) else
    var more := es + [(k, v)];
    if |more| > cap then more[1..] else more
  }

  function Update<K(==), V>(es: seq<(K, V)>, k: K, v: V): seq<(K, V)> {
    seq(|es|, i requires 0 <= i < |es| => if es[i].0 == k then (k, v) else es[i])
  }

  function Drop<K(==), V>(es: seq<(K, V)>, k: K): seq<(K, V)> {
    if es == [] then [] else
    (if es[0].0 == k then [] else [es[0]]) + Drop(es[1..], k)
  }

  lemma {:induction false} FindAt<K, V>(es: seq<(K, V)>, i: nat)
    requires i < |es| && Distinct(Keys(es))
    ensures Find(es, es[i].0) == Some(es[i].1)
  {
    if i > 0 {
      assert Keys(es)[0] != Keys(es)[i];
      assert Keys(es[1..]) == Keys(es)[1..];
      FindAt(es[1..], i - 1);
    }
  }

  lemma {:induction false} FindNone<K, V>(es: seq<(K, V)>, k: K)
    ensures Find(es, k).None? <==> k !in Keys(es)
  {
    if es != [] {
      FindNone(es[1..], k);
      assert Keys(es) == [es[0].0] + Keys(es[1..]);
    }
  }

  // Keys in step with values: what is found is where the key is.
  lemma {:induction false} FindSame<K, V>(es: seq<(K, V)>, fs: seq<(K, V)>, k: K)
    requires |es| == |fs| && forall i | 0 <= i < |es| :: es[i].0 == fs[i].0 && (es[i].0 == k ==> es[i] == fs[i])
    ensures Find(fs, k) == Find(es, k)
  {
    if es != [] {
      FindSame(es[1..], fs[1..], k);
    }
  }

  lemma {:induction false} FindSnoc<K, V>(es: seq<(K, V)>, k: K, v: V, other: K)
    ensures Find(es + [(k, v)], other) == if Find(es, other).Some? || other != k then Find(es, other) else Some(v)
  {
    if es != [] {
      FindSnoc(es[1..], k, v, other);
      assert (es + [(k, v)])[1..] == es[1..] + [(k, v)];
    }
  }

  // Putting keeps the keys distinct and within the cap, and the key just put
  // is found: it is never the one evicted.
  lemma PutKeeps<K, V>(es: seq<(K, V)>, cap: nat, k: K, v: V)
    requires Distinct(Keys(es)) && |es| <= cap
    ensures Distinct(Keys(Put(es, cap, k, v))) && |Put(es, cap, k, v)| <= cap
    ensures cap > 0 ==> Find(Put(es, cap, k, v), k) == Some(v)
  {
    var r := Put(es, cap, k, v);
    var was, now := Keys(es), Keys(r);
    if k in was {
      assert now == was;
      var i :| 0 <= i < |was| && was[i] == k;
      FindAt(r, i);
    } else {
      assert Keys(es + [(k, v)]) == was + [k];
      assert now == if |es| == cap then (was + [k])[1..] else was + [k];
      DistinctSnoc(was, k);
      DistinctTail(was + [k]);
      if cap > 0 {
        FindAt(r, |r| - 1);
      }
    }
  }

  // Any other key keeps its value, but for the oldest when a new key overflows
  // the cap.
  lemma PutFinds<K, V>(es: seq<(K, V)>, cap: nat, k: K, v: V, other: K)
    requires Distinct(Keys(es)) && |es| <= cap && cap > 0 && other != k
    ensures Find(Put(es, cap, k, v), other)
         == if k !in Keys(es) && |es| == cap && other == es[0].0 then None else Find(es, other)
  {
    if k in Keys(es) {
      FindSame(es, Update(es, k, v), other);
    } else if |es| < cap {
      FindSnoc(es, k, v, other);
    } else {
      EvictFinds(es, k, v, other);
    }
  }

  // Entries put one after another.
  function PutAll<K(==), V>(es: seq<(K, V)>, cap: nat, more: seq<(K, V)>): seq<(K, V)>
    decreases |more|
  {
    if more == [] then es else PutAll(Put(es, cap, more[0].0, more[0].1), cap, more[1..])
  }

  // New keys queue up in the order they are put, and the oldest leave first:
  // what stays is the last `cap`, in order.
  lemma {:induction false} FirstInFirstOut<K, V>(es: seq<(K, V)>, cap: nat, more: seq<(K, V)>)
    requires Distinct(Keys(es + more)) && |es| <= cap
    ensures PutAll(es, cap, more) == (es + more)[Max(|es| + |more| - cap, 0)..]
    decreases |more|
  {
    if more == [] {
      assert es + more == es;
    } else {
      var k := more[0].0;
      forall i | 0 <= i < |es| ensures Keys(es)[i] != k {
        assert Keys(es + more)[i] != Keys(es + more)[|es|];
      }
      var next := Put(es, cap, k, more[0].1);
      var n := |es| + 1 - |next|;
      assert next + more[1..] == (es + more)[n..];
      assert Keys(next + more[1..]) == Keys(es + more)[n..];
      FirstInFirstOut(next, cap, more[1..]);
    }
  }

  // A key that is there keeps its place.
  lemma PutAgain<K, V>(es: seq<(K, V)>, cap: nat, i: nat, v: V)
    requires Distinct(Keys(es)) && i < |es| <= cap
    ensures Put(es, cap, es[i].0, v) == es[i := (es[i].0, v)]
  {
    assert Keys(es)[i] == es[i].0;
    forall j | 0 <= j < |es| && j != i ensures es[j].0 != es[i].0 {
      assert Keys(es)[j] != Keys(es)[i];
    }
  }

  lemma EvictFinds<K, V>(es: seq<(K, V)>, k: K, v: V, other: K)
    requires Distinct(Keys(es)) && es != [] && other != k
    ensures Find((es + [(k, v)])[1..], other) == if other == es[0].0 then None else Find(es, other)
  {
    assert (es + [(k, v)])[1..] == es[1..] + [(k, v)];
    FindSnoc(es[1..], k, v, other);
    TailFinds(es, other);
  }

  lemma TailFinds<K, V>(es: seq<(K, V)>, k: K)
    requires Distinct(Keys(es)) && es != []
    ensures Find(es[1..], k) == if k == es[0].0 then None else Find(es, k)
  {
    if k == es[0].0 {
      DistinctTail(Keys(es));
      assert Keys(es[1..]) == Keys(es)[1..];
      FindNone(es[1..], k);
    }
  }

  lemma DistinctSnoc<K>(s: seq<K>, k: K)
    requires Distinct(s) && k !in s
    ensures Distinct(s + [k])
  {
  }

  lemma DistinctTail<K>(s: seq<K>)
    requires Distinct(s) && s != []
    ensures Distinct(s[1..]) && s[0] !in s[1..]
  {
    forall i, j | 0 <= i < j < |s[1..]| ensures s[1..][i] != s[1..][j] {
      assert s[i + 1] != s[j + 1];
    }
    forall i | 0 <= i < |s[1..]| ensures s[1..][i] != s[0] {
      assert s[0] != s[i + 1];
    }
  }

  lemma {:induction false} DropFinds<K, V>(es: seq<(K, V)>, k: K, other: K)
    ensures |Drop(es, k)| <= |es|
    ensures Find(Drop(es, k), other) == if other == k then None else Find(es, other)
  {
    if es != [] {
      DropFinds(es[1..], k, other);
      var r := Drop(es, k);
      assert if es[0].0 == k then r == Drop(es[1..], k) else r[1..] == Drop(es[1..], k);
    }
  }

  lemma {:induction false} DropKeeps<K, V>(es: seq<(K, V)>, k: K)
    requires Distinct(Keys(es))
    ensures Distinct(Keys(Drop(es, k))) && |Drop(es, k)| <= |es|
    ensures forall x :: x in Keys(Drop(es, k)) ==> x in Keys(es)
  {
    if es != [] {
      DistinctTail(Keys(es));
      assert Keys(es[1..]) == Keys(es)[1..];
      DropKeeps(es[1..], k);
      var rest := Keys(Drop(es[1..], k));
      assert Keys(Drop(es, k)) == if es[0].0 == k then rest else [es[0].0] + rest;
      DistinctCons(es[0].0, rest);
    }
  }

  lemma DistinctCons<K>(x: K, s: seq<K>)
    requires Distinct(s)
    ensures x !in s ==> Distinct([x] + s)
  {
  }

  // ---- how it is kept ----

  // The queue without the key.
  function Retain<K(==)>(s: seq<K>, k: K): seq<K> {
    if s == [] then [] else (if s[0] == k then [] else [s[0]]) + Retain(s[1..], k)
  }

  lemma {:induction false} RetainKeeps<K>(s: seq<K>, k: K)
    requires Distinct(s)
    ensures Distinct(Retain(s, k)) && forall x :: x in Retain(s, k) <==> x in s && x != k
    ensures |Retain(s, k)| <= |s|
  {
    if s != [] {
      DistinctTail(s);
      RetainKeeps(s[1..], k);
      assert s == [s[0]] + s[1..];
      var rest := Retain(s[1..], k);
      if s[0] != k {
        forall i, j | 0 <= i < j < |[s[0]] + rest| ensures ([s[0]] + rest)[i] != ([s[0]] + rest)[j] {
          if i == 0 {
            assert rest[j - 1] in rest;
          }
        }
      } else {
        assert [] + rest == rest;
      }
    }
  }

  const META_CAP: nat := 0x4_0000

  class MetaCache<K(==), V> {
    const cap: nat
    var entries: map<K, V>
    var order: seq<K>

    // The queue holds exactly the map's keys, once each, within the cap.
    ghost predicate Valid() reads this {
      && Distinct(order) && |order| <= cap
      && (forall k <- order :: k in entries) && (forall k <- entries :: k in order)
    }

    ghost function Contents(): seq<(K, V)>
      reads this
      requires Valid()
    {
      Zip(order, entries)
    }

    lemma ContentsKept()
      requires Valid()
      ensures Distinct(Keys(Contents())) && |Contents()| <= cap
    {
      ZipKeys(order, entries);
    }

    constructor (cap: nat)
      ensures Valid() && this.cap == cap && Contents() == []
    {
      this.cap, entries, order := cap, map[], [];
    }

    method Get(k: K) returns (v: Option<V>)
      requires Valid()
      ensures v == Find(Contents(), k)
    {
      v := Lookup(entries, k);
      ZipKeys(order, entries);
      FindNone(Contents(), k);
      if k in entries {
        var i :| 0 <= i < |order| && order[i] == k;
        FindAt(Contents(), i);
      }
    }

    method Insert(k: K, v: V)
      requires Valid()
      modifies this`entries, this`order
      ensures Valid() && Contents() == Put(old(Contents()), cap, k, v)
      ensures k in old(order) ==> order == old(order)
      ensures k !in old(order) ==> order == if |old(order)| < cap then old(order) + [k] else (old(order) + [k])[1..]
    {
      ghost var was := Contents();
      ghost var order0, entries0 := order, entries;
      ZipKeys(order, entries);
      var isNew := k !in entries;
      entries := entries[k := v];
      if isNew {
        ZipPush(order, entries0, k, v);
        order := order + [k];
        SizeIs(order, entries);
        if |entries| > cap {
          var oldest := order[0];
          DistinctTail(order);
          ZipPop(order, entries);
          order := order[1..];
          entries := entries - {oldest};
        }
      } else {
        ZipUpdate(order, entries0, k, v);
      }
    }

    method Invalidate(k: K)
      requires Valid()
      modifies this`entries, this`order
      ensures Valid() && Contents() == Drop(old(Contents()), k)
    {
      if k in entries {
        RetainKeeps(order, k);
        ZipDrop(order, entries, k);
        entries := entries - {k};
        order := Retain(order, k);
      } else {
        DropNone(Contents(), k);
        ZipKeys(order, entries);
      }
    }
  }

  ghost function Zip<K, V>(order: seq<K>, entries: map<K, V>): seq<(K, V)>
    requires forall k <- order :: k in entries
  {
    seq(|order|, i requires 0 <= i < |order| => (order[i], entries[order[i]]))
  }

  lemma ZipKeys<K, V>(order: seq<K>, entries: map<K, V>)
    requires forall k <- order :: k in entries
    ensures Keys(Zip(order, entries)) == order
  {
  }

  lemma ZipPush<K, V>(order: seq<K>, entries: map<K, V>, k: K, v: V)
    requires Distinct(order) && (forall q <- order :: q in entries) && k !in order
    ensures Distinct(order + [k])
    ensures Zip(order + [k], entries[k := v]) == Zip(order, entries) + [(k, v)]
  {
    DistinctSnoc(order, k);
  }

  lemma ZipPop<K, V>(order: seq<K>, entries: map<K, V>)
    requires Distinct(order) && order != [] && forall q <- order :: q in entries
    ensures forall q <- order[1..] :: q in entries - {order[0]}
    ensures Zip(order[1..], entries - {order[0]}) == Zip(order, entries)[1..]
  {
    DistinctTail(order);
  }

  lemma ZipUpdate<K, V>(order: seq<K>, entries: map<K, V>, k: K, v: V)
    requires Distinct(order) && (forall q <- order :: q in entries) && k in order
    ensures forall cap :: Zip(order, entries[k := v]) == Put(Zip(order, entries), cap, k, v)
  {
    ZipKeys(order, entries);
  }

  lemma SizeIs<K, V>(order: seq<K>, entries: map<K, V>)
    requires Distinct(order) && (forall k <- order :: k in entries) && (forall k <- entries :: k in order)
    ensures |entries| == |order|
  {
    SetSize(order);
    assert entries.Keys == set k | k in order;
  }

  lemma {:induction false} SetSize<K>(order: seq<K>)
    requires Distinct(order)
    ensures |set k | k in order| == |order|
  {
    if order != [] {
      var n := |order| - 1;
      SetSize(order[..n]);
      assert (set k | k in order) == (set k | k in order[..n]) + {order[n]};
    }
  }

  lemma {:induction false} ZipDrop<K, V>(order: seq<K>, entries: map<K, V>, k: K)
    requires forall q <- order :: q in entries
    ensures forall q <- Retain(order, k) :: q in entries - {k}
    ensures Zip(Retain(order, k), entries - {k}) == Drop(Zip(order, entries), k)
  {
    if order != [] {
      ZipDrop(order[1..], entries, k);
      assert Zip(order, entries)[1..] == Zip(order[1..], entries);
    }
  }

  lemma {:induction false} DropNone<K, V>(es: seq<(K, V)>, k: K)
    requires k !in Keys(es)
    ensures Drop(es, k) == es
  {
    if es != [] {
      assert Keys(es)[0] == es[0].0;
      assert forall i | 0 <= i < |es| - 1 :: Keys(es[1..])[i] == Keys(es)[i + 1];
      DropNone(es[1..], k);
    }
  }
}
