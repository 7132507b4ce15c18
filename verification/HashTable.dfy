/** lib/hash.cc: a hash table with separate chaining that grows by itself, and its iterator. */
module HashTables {
  import opened Sequences
  import opened Words
  import opened LinkedLists

  const INITIAL_BUCKETS := 4
  const RESIZE_RATIO := 3
  const INCREASE_SIZE_BY := 4

  // ---------------------------------------------------------------- buckets

  function Flat<T>(buckets: seq<seq<T>>): (s: seq<T>) {
    if buckets == [] then [] else buckets[0] + Flat(buckets[1..])
  }

  function TotalLength<T>(buckets: seq<seq<T>>): (n: nat) {
    if buckets == [] then 0 else |buckets[0]| + TotalLength(buckets[1..])
  }

  /** How items are keyed and keys are hashed. */
  datatype Scheme<!Key, !T> = Scheme(getKey: T -> Key, hash: Key -> uint32)
  {
    function Slot(key: Key, n: nat): (b: nat)
      requires n > 0
      ensures b < n
    {
      hash(key) % n
    }
  }

  /** An item is in the map under its key, and in the bucket to which its key hashes. */
  predicate ItemOk<Key, T(==)>(n: nat, c: map<Key, T>, f: Scheme<Key, T>, b: nat, x: T)
    requires n > 0
  {
    var key := f.getKey(x);
    key in c && c[key] == x && f.Slot(key, n) == b
  }

  predicate KeyOk<Key, T(==)>(buckets: seq<seq<T>>, c: map<Key, T>, f: Scheme<Key, T>, k: Key)
    requires |buckets| > 0 && k in c
  {
    f.getKey(c[k]) == k && c[k] in buckets[f.Slot(k, |buckets|)]
  }

  /** The buckets hold exactly the items of a map, each in the bucket its key hashes to, and none twice. */
  ghost predicate Holds<Key, T>(buckets: seq<seq<T>>, c: map<Key, T>, f: Scheme<Key, T>) {
    && |buckets| > 0
    && (forall b, i :: 0 <= b < |buckets| && 0 <= i < |buckets[b]| ==> ItemOk(|buckets|, c, f, b, buckets[b][i]))
    && (forall k :: k in c ==> KeyOk(buckets, c, f, k))
    && (forall b :: 0 <= b < |buckets| ==> Distinct(buckets[b]))
    && TotalLength(buckets) == |c|
  }

  lemma {:induction false} TotalLengthUpdate<T>(buckets: seq<seq<T>>, b: nat, s: seq<T>)
    requires b < |buckets|
    ensures TotalLength(buckets[b := s]) == TotalLength(buckets) - |buckets[b]| + |s|
  {
    if b == 0 {
      assert buckets[b := s][1..] == buckets[1..];
    } else {
      assert buckets[b := s][1..] == buckets[1..][b - 1 := s];
      TotalLengthUpdate(buckets[1..], b - 1, s);
    }
  }

  function Put<T>(buckets: seq<seq<T>>, b: nat, x: T): (r: seq<seq<T>>)
    requires b < |buckets|
    ensures |r| == |buckets|
  {
    buckets[b := buckets[b] + [x]]
  }

  function Drop<T>(buckets: seq<seq<T>>, b: nat, i: nat): (r: seq<seq<T>>)
    requires b < |buckets| && i < |buckets[b]|
    ensures |r| == |buckets| && |r[b]| == |buckets[b]| - 1
    ensures forall a :: 0 <= a < |r| && a != b ==> r[a] == buckets[a]
  {
    buckets[b := buckets[b][..i] + buckets[b][i + 1..]]
  }

  lemma PutKeeps<Key, T>(buckets: seq<seq<T>>, c: map<Key, T>, f: Scheme<Key, T>, x: T, k: Key)
    requires |buckets| > 0 && f.getKey(x) !in c && k in c[f.getKey(x) := x]
    requires k in c ==> KeyOk(buckets, c, f, k)
    ensures KeyOk(Put(buckets, f.Slot(f.getKey(x), |buckets|), x), c[f.getKey(x) := x], f, k)
  {
    var key := f.getKey(x);
    var b := f.Slot(key, |buckets|);
    hide Scheme.Slot;
    if k == key {
      assert (buckets[b] + [x])[|buckets[b]|] == x;
    }
  }

  /** Appending an item with a new key to its bucket. */
  lemma HoldsMore<Key, T>(buckets: seq<seq<T>>, c: map<Key, T>, f: Scheme<Key, T>, x: T)
    requires Holds(buckets, c, f) && f.getKey(x) !in c
    ensures |buckets| > 0 && Holds(Put(buckets, f.Slot(f.getKey(x), |buckets|), x), c[f.getKey(x) := x], f)
  {
    var key := f.getKey(x);
    var b := f.Slot(key, |buckets|);
    var s := buckets[b] + [x];
    var buckets', c' := Put(buckets, b, x), c[key := x];
    TotalLengthUpdate(buckets, b, s);
    assert x !in buckets[b];
    DistinctInsert(buckets[b], |buckets[b]|, x);
    assert buckets[b][..|buckets[b]|] + [x] + buckets[b][|buckets[b]|..] == s;
    OneMoreKey(c, key, x);
    hide TotalLength, Distinct, Scheme.Slot, KeyOk;
    forall k | k in c'
      ensures KeyOk(buckets', c', f, k)
    {
      PutKeeps(buckets, c, f, x, k);
    }
    forall a, j | 0 <= a < |buckets'| && 0 <= j < |buckets'[a]|
      ensures ItemOk(|buckets|, c', f, a, buckets'[a][j])
    {
      if a != b || j < |buckets[b]| {
        assert ItemOk(|buckets|, c, f, a, buckets[a][j]);
      }
    }
  }

  lemma DropKeepsItem<Key, T>(buckets: seq<seq<T>>, c: map<Key, T>, f: Scheme<Key, T>, b: nat, i: nat, a: nat, j: nat)
    requires Holds(buckets, c, f) && b < |buckets| && i < |buckets[b]| && a < |buckets| && j < |Drop(buckets, b, i)[a]|
    ensures ItemOk(|buckets|, c - {f.getKey(buckets[b][i])}, f, a, Drop(buckets, b, i)[a][j])
  {
    var j' := if a == b && j >= i then j + 1 else j;
    var x, y := buckets[b][i], buckets[a][j'];
    assert Drop(buckets, b, i)[a][j] == y;
    assert ItemOk(|buckets|, c, f, b, x) && ItemOk(|buckets|, c, f, a, y) && Distinct(buckets[b]);
    hide Holds, Scheme.Slot;
    if a == b {
      assert x != y;
    }
  }

  lemma DropKeepsKey<Key, T>(buckets: seq<seq<T>>, c: map<Key, T>, f: Scheme<Key, T>, b: nat, i: nat, k: Key)
    requires |buckets| > 0 && b < |buckets| && i < |buckets[b]|
    requires k in c && k != f.getKey(buckets[b][i]) && KeyOk(buckets, c, f, k)
    ensures KeyOk(Drop(buckets, b, i), c - {f.getKey(buckets[b][i])}, f, k)
  {
    hide Scheme.Slot;
    var a, s := f.Slot(k, |buckets|), Drop(buckets, b, i)[b];
    if a == b {
      var j :| 0 <= j < |buckets[a]| && buckets[a][j] == c[k];
      assert s[if j < i then j else j - 1] == c[k];
    }
  }

  /** Taking an item out of its bucket. */
  lemma HoldsLess<Key, T>(buckets: seq<seq<T>>, c: map<Key, T>, f: Scheme<Key, T>, b: nat, i: nat)
    requires Holds(buckets, c, f) && b < |buckets| && i < |buckets[b]|
    ensures var key := f.getKey(buckets[b][i]);
      key in c && c[key] == buckets[b][i] && Holds(Drop(buckets, b, i), c - {key}, f)
  {
    var x, s := buckets[b][i], buckets[b][..i] + buckets[b][i + 1..];
    var key := f.getKey(x);
    assert ItemOk(|buckets|, c, f, b, x);
    var buckets', c' := Drop(buckets, b, i), c - {key};
    TotalLengthUpdate(buckets, b, s);
    DistinctRemove(buckets[b], i);
    OneKeyLess(c, key);
    hide TotalLength, Distinct, Scheme.Slot;
    forall a, j | 0 <= a < |buckets'| && 0 <= j < |buckets'[a]|
      ensures ItemOk(|buckets|, c', f, a, buckets'[a][j])
    {
      DropKeepsItem(buckets, c, f, b, i, a, j);
    }
    hide ItemOk;
    forall k | k in c'
      ensures KeyOk(buckets', c', f, k)
    {
      assert KeyOk(buckets, c, f, k);
      DropKeepsKey(buckets, c, f, b, i, k);
    }
  }

  /** What the iterator goes through: every item of the map, once. */
  lemma {:induction false} FlatMembers<T>(buckets: seq<seq<T>>, x: T)
    ensures x in Flat(buckets) <==> exists b :: 0 <= b < |buckets| && x in buckets[b]
  {
    if buckets != [] {
      FlatMembers(buckets[1..], x);
      if b :| 0 <= b < |buckets| && x in buckets[b] {
        if b > 0 {
          assert x in buckets[1..][b - 1];
        }
      }
      if b :| 0 <= b < |buckets[1..]| && x in buckets[1..][b] {
        assert x in buckets[b + 1];
      }
    }
  }

  lemma DistinctJoin<T>(a: seq<T>, b: seq<T>)
    requires Distinct(a) && Distinct(b) && forall x :: x in a ==> x !in b
    ensures Distinct(a + b)
  {
    forall i, j | 0 <= i < j < |a + b|
      ensures (a + b)[i] != (a + b)[j]
    {
      if i < |a| <= j {
        assert a[i] in a && b[j - |a|] in b;
      }
    }
  }

  lemma {:induction false} FlatDistinct<T>(buckets: seq<seq<T>>)
    requires forall b :: 0 <= b < |buckets| ==> Distinct(buckets[b])
    requires forall b, a, x :: 0 <= b < a < |buckets| && x in buckets[b] ==> x !in buckets[a]
    ensures Distinct(Flat(buckets)) && |Flat(buckets)| == TotalLength(buckets)
  {
    if buckets != [] {
      var rest := buckets[1..];
      FlatDistinct(rest);
      forall x | x in buckets[0]
        ensures x !in Flat(rest)
      {
        FlatMembers(rest, x);
        assert forall b :: 0 <= b < |rest| ==> rest[b] == buckets[b + 1];
      }
      DistinctJoin(buckets[0], Flat(rest));
    }
  }

  /** A sequence of all the items of a map, each of them once. */
  ghost predicate Lists<Key, T(!new)>(items: seq<T>, c: map<Key, T>, f: Scheme<Key, T>) {
    && Distinct(items) && |items| == |c|
    && forall x :: x in items <==> f.getKey(x) in c && c[f.getKey(x)] == x
  }

  lemma FlatIsContents<Key, T(!new)>(buckets: seq<seq<T>>, c: map<Key, T>, f: Scheme<Key, T>)
    requires Holds(buckets, c, f)
    ensures Lists(Flat(buckets), c, f)
  {
    forall b, a, x | 0 <= b < a < |buckets| && x in buckets[b]
      ensures x !in buckets[a]
    {
      var i :| 0 <= i < |buckets[b]| && buckets[b][i] == x;
      assert ItemOk(|buckets|, c, f, b, x);
    }
    FlatDistinct(buckets);
    hide Distinct, TotalLength;
    forall x
      ensures x in Flat(buckets) <==> f.getKey(x) in c && c[f.getKey(x)] == x
    {
      FlatMembers(buckets, x);
      if f.getKey(x) in c && c[f.getKey(x)] == x {
        assert KeyOk(buckets, c, f, f.getKey(x));
      }
      if b :| 0 <= b < |buckets| && x in buckets[b] {
        var i :| 0 <= i < |buckets[b]| && buckets[b][i] == x;
        assert ItemOk(|buckets|, c, f, b, x);
      }
    }
  }

  // ---------------------------------------------------------------- the table

  class HashTable<Key(==), T(==)> {
    const f: Scheme<Key, T>
    var buckets: seq<seq<T>>
    var numItems: int
    ghost var contents: map<Key, T>

    ghost predicate Valid()
      reads this
    {
      Holds(buckets, contents, f) && numItems == |contents| && numItems <= RESIZE_RATIO * |buckets|
    }

    constructor (getKey: T -> Key, hash: Key -> uint32)
      ensures Valid() && contents == map[] && f == Scheme(getKey, hash) && |buckets| == INITIAL_BUCKETS
    {
      f := Scheme(getKey, hash);
      buckets := seq(INITIAL_BUCKETS, i => []);
      numItems := 0;
      contents := map[];
      new;
      NoBuckets(buckets);
    }

    method FindInBucket(bucket: nat, key: Key) returns (found: bool, index: nat)
      requires bucket < |buckets|
      ensures found ==> index < |buckets[bucket]| && f.getKey(buckets[bucket][index]) == key
      ensures !found ==> forall i :: 0 <= i < |buckets[bucket]| ==> f.getKey(buckets[bucket][i]) != key
    {
      index := 0;
      while index < |buckets[bucket]|
        invariant index <= |buckets[bucket]|
        invariant forall i :: 0 <= i < index ==> f.getKey(buckets[bucket][i]) != key
      {
        if key == f.getKey(buckets[bucket][index]) {
          return true, index;
        }
        index := index + 1;
      }
      found := false;
    }

    method Find(key: Key) returns (found: bool, item: seq<T>)
      requires Valid()
      ensures found <==> key in contents
      ensures item == if found then [contents[key]] else []
    {
      var bucket := f.Slot(key, |buckets|);
      var index;
      found, index := FindInBucket(bucket, key);
      item := if found then [buckets[bucket][index]] else [];
    }

    method Insert(item: T)
      requires Valid() && f.getKey(item) !in contents
      modifies this
      ensures Valid() && contents == old(contents)[f.getKey(item) := item]
    {
      hide Holds, Put, Scheme.Slot;
      var key := f.getKey(item);
      SomeBuckets(buckets, contents, f);
      if numItems / |buckets| >= RESIZE_RATIO {
        ReHash();
      }
      HoldsMore(buckets, contents, f, item);
      OneMoreKey(contents, key, item);
      buckets := Put(buckets, f.Slot(key, |buckets|), item);
      numItems := numItems + 1;
      contents := contents[key := item];
    }

    /** Moves every item to a table with four times as many buckets. */
    method ReHash()
      requires Valid()
      modifies this`buckets
      ensures Valid() && |buckets| == old(|buckets|) * INCREASE_SIZE_BY
    {
      hide Holds, Moving, Scheme.Slot, Put, Drop;
      SomeBuckets(buckets, contents, f);
      var oldTable, oldSize := buckets, |buckets|;
      buckets := seq(oldSize * INCREASE_SIZE_BY, i => []);
      ghost var moved: map<Key, T>, left: map<Key, T> := map[], contents;
      StartMoving(oldTable, buckets, contents, f);
      for i := 0 to oldSize
        invariant |oldTable| == oldSize && |buckets| == oldSize * INCREASE_SIZE_BY
        invariant Moving(oldTable, left, buckets, moved, contents, f)
        invariant forall j :: 0 <= j < i ==> oldTable[j] == []
      {
        while oldTable[i] != []
          invariant |oldTable| == oldSize && |buckets| == oldSize * INCREASE_SIZE_BY
          invariant Moving(oldTable, left, buckets, moved, contents, f)
          invariant forall j :: 0 <= j < i ==> oldTable[j] == []
          decreases |oldTable[i]|
        {
          var item := oldTable[i][0];
          var key := f.getKey(item);
          MoveOne(oldTable, left, buckets, moved, contents, f, i);
          oldTable := Drop(oldTable, i, 0);
          buckets := Put(buckets, f.Slot(key, |buckets|), item);
          moved, left := moved[key := item], left - {key};
        }
      }
      DoneMoving(oldTable, left, buckets, moved, contents, f);
    }

    method Remove(key: Key) returns (item: T)
      requires Valid() && key in contents
      modifies this
      ensures Valid() && contents == old(contents) - {key} && item == old(contents)[key]
    {
      hide Holds, Drop, Scheme.Slot;
      SomeBuckets(buckets, contents, f);
      InItsBucket(buckets, contents, f, key);
      var bucket := f.Slot(key, |buckets|);
      var found, index := FindInBucket(bucket, key);
      assert found;
      item := buckets[bucket][index];
      HoldsLess(buckets, contents, f, bucket, index);
      OneKeyLess(contents, key);
      buckets := Drop(buckets, bucket, index);
      numItems := numItems - 1;
      contents := contents - {key};
    }

    method FindNextFullBucket(from: nat) returns (bucket: nat)
      requires from <= |buckets|
      ensures from <= bucket <= |buckets| && (bucket < |buckets| ==> buckets[bucket] != [])
      ensures Flat(buckets[from..]) == Flat(buckets[bucket..])
    {
      bucket := from;
      while bucket < |buckets| && buckets[bucket] == []
        invariant from <= bucket <= |buckets|
        invariant Flat(buckets[from..]) == Flat(buckets[bucket..])
      {
        assert buckets[bucket..][1..] == buckets[bucket + 1..];
        bucket := bucket + 1;
      }
    }
  }

  lemma OneMoreKey<Key, T>(c: map<Key, T>, key: Key, x: T)
    requires key !in c
    ensures |c[key := x]| == |c| + 1
  {
    assert c[key := x].Keys == c.Keys + {key};
  }

  lemma OneKeyLess<Key, T>(c: map<Key, T>, key: Key)
    requires key in c
    ensures |c - {key}| == |c| - 1
  {
    assert (c - {key}).Keys == c.Keys - {key};
  }

  lemma InItsBucket<Key, T>(buckets: seq<seq<T>>, c: map<Key, T>, f: Scheme<Key, T>, key: Key)
    requires Holds(buckets, c, f) && |buckets| > 0 && key in c
    ensures var bucket := buckets[f.Slot(key, |buckets|)];
      exists i :: 0 <= i < |bucket| && f.getKey(bucket[i]) == key
  {
    assert KeyOk(buckets, c, f, key);
  }

  lemma SomeBuckets<Key, T>(buckets: seq<seq<T>>, c: map<Key, T>, f: Scheme<Key, T>)
    requires Holds(buckets, c, f)
    ensures |buckets| > 0
  {
  }

  lemma {:induction false} NoBuckets<T>(buckets: seq<seq<T>>)
    requires forall b :: 0 <= b < |buckets| ==> buckets[b] == []
    ensures TotalLength(buckets) == 0
  {
    if buckets != [] {
      NoBuckets(buckets[1..]);
    }
  }

  lemma EmptyHolds<Key, T>(buckets: seq<seq<T>>, f: Scheme<Key, T>)
    requires |buckets| > 0 && forall b :: 0 <= b < |buckets| ==> buckets[b] == []
    ensures Holds(buckets, map[], f)
  {
    NoBuckets(buckets);
  }

  /** The state of ReHash: the items moved and the items left make up the map. */
  ghost predicate Moving<Key, T>(
    from: seq<seq<T>>, left: map<Key, T>, to: seq<seq<T>>, moved: map<Key, T>, c: map<Key, T>, f: Scheme<Key, T>)
  {
    Holds(from, left, f) && Holds(to, moved, f) && moved.Keys !! left.Keys && moved + left == c
  }

  lemma StartMoving<Key, T>(from: seq<seq<T>>, to: seq<seq<T>>, c: map<Key, T>, f: Scheme<Key, T>)
    requires Holds(from, c, f) && |to| > 0 && forall b :: 0 <= b < |to| ==> to[b] == []
    ensures Moving(from, c, to, map[], c, f)
  {
    EmptyHolds(to, f);
    hide Holds;
    assert map[] + c == c;
  }

  lemma MoveOne<Key, T>(from: seq<seq<T>>, left: map<Key, T>, to: seq<seq<T>>, moved: map<Key, T>, c: map<Key, T>,
                        f: Scheme<Key, T>, i: nat)
    requires Moving(from, left, to, moved, c, f) && i < |from| && from[i] != []
    ensures |to| > 0
    ensures var x := from[i][0]; var key := f.getKey(x);
      Moving(Drop(from, i, 0), left - {key}, Put(to, f.Slot(key, |to|), x), moved[key := x], c, f)
  {
    hide Holds, Put, Drop;
    HoldsLess(from, left, f, i, 0);
    HoldsMore(to, moved, f, from[i][0]);
  }

  lemma DoneMoving<Key, T>(from: seq<seq<T>>, left: map<Key, T>, to: seq<seq<T>>, moved: map<Key, T>, c: map<Key, T>,
                           f: Scheme<Key, T>)
    requires Moving(from, left, to, moved, c, f) && forall b :: 0 <= b < |from| ==> from[b] == []
    ensures Holds(to, c, f)
  {
    hide Holds;
    NothingLeft(from, left, f);
    assert moved + map[] == moved;
  }

  lemma NothingLeft<Key, T>(buckets: seq<seq<T>>, c: map<Key, T>, f: Scheme<Key, T>)
    requires Holds(buckets, c, f) && forall b :: 0 <= b < |buckets| ==> buckets[b] == []
    ensures c == map[]
  {
    NoBuckets(buckets);
  }

  // ---------------------------------------------------------------- the iterator

  class HashIterator<Key(==), T(==)> {
    const table: HashTable<Key, T>
    var bucket: nat
    var position: nat // of the iterator of that bucket

    ghost predicate Valid()
      reads this, table
    {
      bucket <= |table.buckets| && (bucket < |table.buckets| ==> position < |table.buckets[bucket]|)
    }

    /** The items that are still to come, this one included. */
    ghost function Remaining(): (s: seq<T>)
      requires Valid()
      reads this, table
    {
      if bucket < |table.buckets| then table.buckets[bucket][position..] + Flat(table.buckets[bucket + 1..]) else []
    }

    /** Starts with all items of the table; by FlatIsContents these are the items of its map, each of them once. */
    constructor (tbl: HashTable<Key, T>)
      ensures Valid() && table == tbl && Remaining() == Flat(tbl.buckets)
    {
      table := tbl;
      var first := tbl.FindNextFullBucket(0);
      bucket := first;
      position := 0;
      new;
      assert tbl.buckets[0..] == tbl.buckets;
      AtBucket();
    }

    lemma AtBucket()
      requires Valid() && position == 0
      ensures Remaining() == Flat(table.buckets[bucket..])
    {
      if bucket < |table.buckets| {
        assert table.buckets[bucket..][1..] == table.buckets[bucket + 1..];
        assert table.buckets[bucket][0..] == table.buckets[bucket];
      }
    }

    method IsDone() returns (done: bool)
      requires Valid()
      ensures done <==> Remaining() == []
    {
      done := bucket == |table.buckets|;
    }

    method Item() returns (item: T)
      requires Valid() && Remaining() != []
      ensures item == Remaining()[0]
    {
      item := table.buckets[bucket][position];
    }

    method Next()
      requires Valid() && Remaining() != []
      modifies this
      ensures Valid() && Remaining() == old(Remaining())[1..]
    {
      ghost var was := Remaining();
      position := position + 1;
      assert was[1..] == table.buckets[bucket][position..] + Flat(table.buckets[bucket + 1..]);
      if position == |table.buckets[bucket]| {
        bucket := table.FindNextFullBucket(bucket + 1);
        position := 0;
        AtBucket();
      }
    }
  }

  /** The loop for which the iterator is made: it ends, having met every item of the table exactly once. */
  method VisitAll<Key(==), T(==, !new)>(table: HashTable<Key, T>) returns (visited: seq<T>)
    requires table.Valid()
    ensures Lists(visited, table.contents, table.f)
  {
    FlatIsContents(table.buckets, table.contents, table.f);
    hide *;
    var iter := new HashIterator(table);
    visited := Drain(iter);
  }

  method Drain<Key(==), T(==)>(iter: HashIterator<Key, T>) returns (visited: seq<T>)
    requires iter.Valid()
    modifies iter
    ensures visited == old(iter.Remaining())
  {
    hide HashIterator.Remaining, HashIterator.Valid;
    visited := [];
    ghost var all := iter.Remaining();
    var done := iter.IsDone();
    while !done
      invariant iter.Valid()
      invariant visited + iter.Remaining() == all
      invariant done <==> iter.Remaining() == []
      decreases |iter.Remaining()|
    {
      var item := iter.Item();
      visited := visited + [item];
      iter.Next();
      done := iter.IsDone();
    }
  }
}
